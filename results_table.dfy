/** The results grid (src/components/ResultsTable.tsx): which rows the current
    page shows, how many pages there are, the "Showing x to y" range, the
    page buttons with their ellipses, and the page state the buttons and the
    page-size selector change. */
module ResultsTable {
  import opened Wrappers
  import opened Json
  import opened Arith

  function Min(a: int, b: int): int {
    if a <= b then a else b
  }

  function Max(a: int, b: int): int {
    if a >= b then a else b
  }

  // =====================================================================
  // The rows of the current page

  /** Where `Array.prototype.slice` puts an index: a negative one counts
      from the end, and both are clamped to the array. */
  function SliceIndex(n: nat, i: int): (k: nat)
    ensures k <= n
    ensures 0 <= i <= n ==> k == i
  {
    if i < 0 then Max(n + i, 0) else Min(i, n)
  }

  /** `s.slice(start, end)` */
  function JsSlice<T>(s: seq<T>, start: int, end: int): (r: seq<T>)
    ensures 0 <= start <= end <= |s| ==> r == s[start..end]
    ensures 0 <= end <= start ==> r == []
  {
    var from, to := SliceIndex(|s|, start), SliceIndex(|s|, end);
    if from >= to then [] else s[from..to]
  }

  /** `getCurrentPageData`: the page's rows, or every row when the page starts
      past the end of the data. */
  function CurrentPageData<T>(data: seq<T>, currentPage: int, pageSize: int): seq<T> {
    var start := (currentPage - 1) * pageSize;
    if start > |data| then data else JsSlice(data, start, start + pageSize)
  }

  /** The rows of a page that starts within the data: at most `pageSize`
      consecutive rows from its start; a page starting exactly at the end of
      the data is empty, one starting further on shows everything. */
  lemma PageRows<T>(data: seq<T>, currentPage: int, pageSize: nat)
    requires currentPage >= 1
    ensures var start := (currentPage - 1) * pageSize;
            start <= |data| ==> CurrentPageData(data, currentPage, pageSize) == data[start..Min(start + pageSize, |data|)]
    ensures var start := (currentPage - 1) * pageSize;
            start > |data| ==> CurrentPageData(data, currentPage, pageSize) == data
    ensures |CurrentPageData(data, currentPage, pageSize)| <= pageSize || (currentPage - 1) * pageSize > |data|
  {
    MulMono(pageSize, 0, currentPage - 1);
  }

  /** The first page holds the first `pageSize` rows. */
  lemma FirstPage<T>(data: seq<T>, pageSize: nat)
    ensures CurrentPageData(data, 1, pageSize) == data[..Min(pageSize, |data|)]
  {
  }

  /** `Math.ceil(n / pageSize)` */
  function TotalPages(n: nat, pageSize: nat): (pages: nat)
    requires pageSize > 0
    ensures pages == 0 <==> n == 0
    ensures n <= pages * pageSize
    ensures pages > 0 ==> (pages - 1) * pageSize < n
  {
    var q := (n + pageSize - 1) / pageSize;
    assert n + pageSize - 1 == pageSize * q + (n + pageSize - 1) % pageSize;
    assert pageSize * (q - 1) == pageSize * q - pageSize;
    if n > 0 then
      DivAtLeast(n + pageSize - 1, pageSize, 1);
      q
    else q
  }

  /** The rows of pages `page`, `page + 1`, ..., up to the last page, one
      after the other. */
  function PagesFrom<T>(data: seq<T>, pageSize: nat, page: nat): seq<T>
    requires pageSize > 0 && page >= 1
    decreases TotalPages(|data|, pageSize) + 1 - page
  {
    if page > TotalPages(|data|, pageSize) then []
    else CurrentPageData(data, page, pageSize) + PagesFrom(data, pageSize, page + 1)
  }

  /** Paging loses and repeats nothing: the pages from `page` on are the rows
      from that page's start on. */
  lemma {:induction false} PagesFromSuffix<T>(data: seq<T>, pageSize: nat, page: nat)
    requires pageSize > 0 && 1 <= page <= TotalPages(|data|, pageSize) + 1
    ensures PagesFrom(data, pageSize, page) == data[Min((page - 1) * pageSize, |data|)..]
    decreases TotalPages(|data|, pageSize) + 1 - page
  {
    var total := TotalPages(|data|, pageSize);
    if page > total {
      MulMono(pageSize, total, page - 1);
    } else {
      var start := (page - 1) * pageSize;
      var stop := Min(start + pageSize, |data|);
      PageStartsInside(|data|, pageSize, page);
      PageRows(data, page, pageSize);
      PagesFromSuffix(data, pageSize, page + 1);
      SliceSplit(data, start, stop);
    }
  }

  lemma SliceSplit<T>(s: seq<T>, i: int, j: int)
    requires 0 <= i <= j <= |s|
    ensures s[i..] == s[i..j] + s[j..]
  {
  }

  /** A page up to the last starts inside the data, and the next one starts
      one page further on. */
  lemma PageStartsInside(n: nat, pageSize: nat, page: nat)
    requires pageSize > 0 && 1 <= page <= TotalPages(n, pageSize)
    ensures 0 <= (page - 1) * pageSize < n
    ensures page * pageSize == (page - 1) * pageSize + pageSize
  {
    MulMono(pageSize, page - 1, TotalPages(n, pageSize) - 1);
    MulMono(pageSize, 0, page - 1);
  }

  /** The pages, read in order, are exactly the data. */
  lemma PagesPartition<T>(data: seq<T>, pageSize: nat)
    requires pageSize > 0
    ensures PagesFrom(data, pageSize, 1) == data
  {
    PagesFromSuffix(data, pageSize, 1);
  }

  /** "Showing `start` to `end`": one-based, the end clamped to the data. */
  function ShownRange(currentPage: int, pageSize: int, n: nat): (range: (int, int))
    ensures range.1 <= n
  {
    var start := (currentPage - 1) * pageSize + 1;
    (start, Min(start + pageSize - 1, n))
  }

  /** For a page that starts within the data the range counts exactly the
      rows the page shows. */
  lemma ShownRangeCountsRows<T>(data: seq<T>, currentPage: int, pageSize: nat)
    requires currentPage >= 1 && (currentPage - 1) * pageSize < |data|
    ensures var (start, end) := ShownRange(currentPage, pageSize, |data|);
            1 <= start <= end + 1 && end - start + 1 == |CurrentPageData(data, currentPage, pageSize)|
  {
    PageRows(data, currentPage, pageSize);
    MulMono(pageSize, 0, currentPage - 1);
  }

  // =====================================================================
  // Cells

  /** What a cell shows: `null` and `undefined` as nothing, anything else as
      `String(value)`. */
  function CellText(row: Value, column: string): (text: string)
    ensures Lookup(row, column).None? ==> text == ""
    ensures Lookup(row, column) == Some(Null) ==> text == ""
  {
    match Lookup(row, column)
    case None => ""
    case Some(v) => if v.Null? then "" else AsString(v)
  }

  /** JavaScript's falsy values among parsed and uploaded values. */
  predicate Falsy(v: Value) {
    v == Null || v == Bool(false) || v == Str("")
    || (v.Number? && (v.shown == "0" || v.shown == "NaN"))
  }

  /** A cell's tooltip, `String(row[column] || "")`. */
  function CellTitle(row: Value, column: string): string {
    match Lookup(row, column)
    case None => ""
    case Some(v) => if Falsy(v) then "" else AsString(v)
  }

  /** The tooltip repeats the cell's text except for `false`, `0` and `NaN`,
      which the cell shows and the tooltip leaves blank. */
  lemma TitleMatchesCell(row: Value, column: string)
    ensures CellTitle(row, column) != CellText(row, column)
            <==> Lookup(row, column) == Some(Bool(false))
                 || (Lookup(row, column).Some? && Lookup(row, column).value.Number?
                     && Lookup(row, column).value.shown in {"0", "NaN"})
  {
  }

  /** A cell shows what the export writes for it, except that the export
      spells out `undefined` and `null`. */
  lemma CellMatchesExport(row: Value, column: string)
    ensures CellText(row, column) == Template(Lookup(row, column))
            <==> !(Lookup(row, column).None? || Lookup(row, column) == Some(Null))
  {
  }

  // =====================================================================
  // Page buttons

  datatype PageItem = Page(number: int) | LeadingEllipsis | TrailingEllipsis

  /** At most this many page buttons. */
  const MaxPageButtons := 7

  /** The buttons `first`, `first + 1`, ..., `last`. */
  function Buttons(first: int, last: int): (items: seq<PageItem>)
    ensures |items| == Max(0, last - first + 1)
    ensures forall i :: 0 <= i < |items| ==> items[i] == Page(first + i)
  {
    seq(Max(0, last - first + 1), i requires 0 <= i => Page(first + i))
  }

  /** The run of pages shown between the first and the last page when there
      are more than seven: two either side of the current page, widened to
      four pages at either end. */
  function Window(totalPages: int, currentPage: int): (bounds: (int, int))
    requires totalPages > MaxPageButtons
    ensures 2 <= bounds.0 <= bounds.1 <= totalPages - 1
    ensures bounds.1 - bounds.0 <= 4
    ensures 1 <= currentPage <= totalPages ==>
              currentPage == 1 || currentPage == totalPages || bounds.0 <= currentPage <= bounds.1
  {
    var startPage := Max(2, currentPage - 2);
    var endPage := Min(totalPages - 1, currentPage + 2);
    var endPage := if currentPage < 4 then Min(totalPages - 1, 5) else endPage;
    var startPage := if currentPage > totalPages - 3 then Max(2, totalPages - 4) else startPage;
    (startPage, endPage)
  }

  /** The buttons `getPageNumbers` lists. */
  function PageNumbers(totalPages: nat, currentPage: int): seq<PageItem> {
    if totalPages <= MaxPageButtons then Buttons(1, totalPages)
    else
      var (startPage, endPage) := Window(totalPages, currentPage);
      [Page(1)]
      + (if startPage > 2 then [LeadingEllipsis] else [])
      + Buttons(startPage, endPage)
      + (if endPage < totalPages - 1 then [TrailingEllipsis] else [])
      + [Page(totalPages)]
  }

  /** `for (let i = first; i <= last; i++) pageNumbers.push(i)` */
  method PushPages(items: seq<PageItem>, first: int, last: int) returns (pageNumbers: seq<PageItem>)
    ensures pageNumbers == items + Buttons(first, last)
  {
    pageNumbers := items;
    var i := first;
    while i <= last
      invariant first <= i <= Max(first, last + 1)
      invariant pageNumbers == items + Buttons(first, i - 1)
      decreases last - i
    {
      pageNumbers := pageNumbers + [Page(i)];
      i := i + 1;
    }
  }

  /** `getPageNumbers`, with its loops. */
  method GetPageNumbers(totalPages: nat, currentPage: int) returns (pageNumbers: seq<PageItem>)
    ensures pageNumbers == PageNumbers(totalPages, currentPage)
  {
    pageNumbers := [];
    if totalPages <= MaxPageButtons {
      pageNumbers := PushPages(pageNumbers, 1, totalPages);
    } else {
      pageNumbers := pageNumbers + [Page(1)];
      var startPage := Max(2, currentPage - 2);
      var endPage := Min(totalPages - 1, currentPage + 2);
      if currentPage < 4 {
        endPage := Min(totalPages - 1, 5);
      }
      if currentPage > totalPages - 3 {
        startPage := Max(2, totalPages - 4);
      }
      assert (startPage, endPage) == Window(totalPages, currentPage);
      ghost var lead: seq<PageItem> := if startPage > 2 then [LeadingEllipsis] else [];
      ghost var trail: seq<PageItem> := if endPage < totalPages - 1 then [TrailingEllipsis] else [];
      if startPage > 2 {
        pageNumbers := pageNumbers + [LeadingEllipsis];
      }
      assert pageNumbers == [Page(1)] + lead;
      pageNumbers := PushPages(pageNumbers, startPage, endPage);
      if endPage < totalPages - 1 {
        pageNumbers := pageNumbers + [TrailingEllipsis];
      }
      assert pageNumbers == [Page(1)] + lead + Buttons(startPage, endPage) + trail;
      pageNumbers := pageNumbers + [Page(totalPages)];
    }
  }

  /** The page numbers among the buttons, in order. */
  function Numbers(items: seq<PageItem>): (numbers: seq<int>)
    ensures |numbers| <= |items|
  {
    if items == [] then []
    else (if items[0].Page? then [items[0].number] else []) + Numbers(items[1..])
  }

  /** Up to seven pages every page has its button, in order, and there is no
      ellipsis. */
  lemma FewPagesAllShown(totalPages: nat, currentPage: int)
    requires totalPages <= MaxPageButtons
    ensures |PageNumbers(totalPages, currentPage)| == totalPages
    ensures forall i :: 0 <= i < totalPages ==> PageNumbers(totalPages, currentPage)[i] == Page(i + 1)
  {
  }

  /** The numbers `first`, ..., `last`. */
  function Run(first: int, last: int): (numbers: seq<int>)
    ensures |numbers| == Max(0, last - first + 1)
    ensures forall i :: 0 <= i < |numbers| ==> numbers[i] == first + i
  {
    seq(Max(0, last - first + 1), i requires 0 <= i => first + i)
  }

  /** The page numbers of two runs of buttons one after the other. */
  lemma {:induction false} NumbersAppend(a: seq<PageItem>, b: seq<PageItem>)
    ensures Numbers(a + b) == Numbers(a) + Numbers(b)
  {
    if a != [] {
      assert (a + b)[1..] == a[1..] + b;
      NumbersAppend(a[1..], b);
    } else {
      assert a + b == b;
    }
  }

  lemma {:induction false} NumbersOfButtons(first: int, last: int)
    ensures Numbers(Buttons(first, last)) == Run(first, last)
    decreases last - first
  {
    if first <= last {
      NumbersOfButtons(first + 1, last);
      assert Buttons(first, last)[1..] == Buttons(first + 1, last);
    }
  }

  /** With more than seven pages the numbers shown are the first page, the
      window, and the last page. */
  lemma NumbersOfManyPages(totalPages: nat, currentPage: int)
    requires totalPages > MaxPageButtons
    ensures Numbers(PageNumbers(totalPages, currentPage))
            == [1] + Run(Window(totalPages, currentPage).0, Window(totalPages, currentPage).1) + [totalPages]
  {
    var (s, e) := Window(totalPages, currentPage);
    var lead: seq<PageItem> := if s > 2 then [LeadingEllipsis] else [];
    var trail: seq<PageItem> := if e < totalPages - 1 then [TrailingEllipsis] else [];
    var middle := Buttons(s, e);
    assert PageNumbers(totalPages, currentPage) == [Page(1)] + lead + middle + trail + [Page(totalPages)];
    NumbersOfButtons(s, e);
    NumbersAppend([Page(1)], lead);
    NumbersAppend([Page(1)] + lead, middle);
    NumbersAppend([Page(1)] + lead + middle, trail);
    NumbersAppend([Page(1)] + lead + middle + trail, [Page(totalPages)]);
  }

  /** With more than seven pages: the first and the last page are always
      there, with at most seven numbers between and including them, all
      rising and within range, and the current page among them. */
  lemma ManyPagesNumbers(totalPages: nat, currentPage: int)
    requires totalPages > MaxPageButtons
    ensures var items := PageNumbers(totalPages, currentPage);
            items[0] == Page(1) && items[|items| - 1] == Page(totalPages)
    ensures |Numbers(PageNumbers(totalPages, currentPage))| <= MaxPageButtons
    ensures var numbers := Numbers(PageNumbers(totalPages, currentPage));
            forall i :: 0 <= i < |numbers| ==> 1 <= numbers[i] <= totalPages
    ensures var numbers := Numbers(PageNumbers(totalPages, currentPage));
            forall i, j :: 0 <= i < j < |numbers| ==> numbers[i] < numbers[j]
    ensures 1 <= currentPage <= totalPages ==> currentPage in Numbers(PageNumbers(totalPages, currentPage))
  {
    NumbersOfManyPages(totalPages, currentPage);
    var (s, e) := Window(totalPages, currentPage);
    var numbers := Numbers(PageNumbers(totalPages, currentPage));
    if 1 <= currentPage <= totalPages {
      if currentPage == 1 {
        assert numbers[0] == currentPage;
      } else if currentPage == totalPages {
        assert numbers[|numbers| - 1] == currentPage;
      } else {
        assert numbers[1 + currentPage - s] == currentPage;
      }
    }
  }

  /** The leading ellipsis is shown exactly when page 2 is not, the trailing
      one exactly when the page before the last is not. */
  lemma ManyPagesEllipses(totalPages: nat, currentPage: int)
    requires totalPages > MaxPageButtons
    ensures LeadingEllipsis in PageNumbers(totalPages, currentPage)
            <==> 2 !in Numbers(PageNumbers(totalPages, currentPage))
    ensures TrailingEllipsis in PageNumbers(totalPages, currentPage)
            <==> totalPages - 1 !in Numbers(PageNumbers(totalPages, currentPage))
  {
    NumbersOfManyPages(totalPages, currentPage);
    var (s, e) := Window(totalPages, currentPage);
    ManyPagesLayout(totalPages, currentPage);
    LayoutEllipses(PageNumbers(totalPages, currentPage), totalPages, s, e);
    ShownMembers(s, e, totalPages, 2);
    ShownMembers(s, e, totalPages, totalPages - 1);
  }

  /** The numbers shown are the first page, the window and the last page. */
  lemma ShownMembers(s: int, e: int, totalPages: int, x: int)
    ensures x in [1] + Run(s, e) + [totalPages] <==> x == 1 || s <= x <= e || x == totalPages
  {
    var numbers := [1] + Run(s, e) + [totalPages];
    if s <= x <= e {
      assert numbers[1 + x - s] == x;
    }
  }

  /** Neighbouring buttons: two page numbers side by side are consecutive, and
      an ellipsis stands between two pages with at least one page skipped. */
  predicate GapsMarked(items: seq<PageItem>) {
    forall i :: 0 <= i < |items| - 1 ==>
      (items[i].Page? && items[i + 1].Page? ==> items[i + 1].number == items[i].number + 1)
      && (!items[i].Page? ==> 0 < i && items[i - 1].Page? && items[i + 1].Page?
                              && items[i + 1].number > items[i - 1].number + 1)
  }

  /** Where each button sits when there are more than seven pages and the
      window runs from `s` to `e`. */
  predicate Layout(items: seq<PageItem>, totalPages: int, s: int, e: int) {
    var m := if s > 2 then 1 else 0;
    var t := if e < totalPages - 1 then 1 else 0;
    && 2 <= s <= e <= totalPages - 1
    && |items| == 3 + m + (e - s) + t
    && items[0] == Page(1) && items[|items| - 1] == Page(totalPages)
    && (m == 1 ==> items[1] == LeadingEllipsis)
    && (t == 1 ==> items[|items| - 2] == TrailingEllipsis)
    && forall i :: 1 + m <= i <= 1 + m + (e - s) ==> items[i] == Page(s + i - 1 - m)
  }

  lemma ManyPagesLayout(totalPages: nat, currentPage: int)
    requires totalPages > MaxPageButtons
    ensures Layout(PageNumbers(totalPages, currentPage), totalPages,
                   Window(totalPages, currentPage).0, Window(totalPages, currentPage).1)
  {
    var (s, e) := Window(totalPages, currentPage);
    var lead: seq<PageItem> := if s > 2 then [LeadingEllipsis] else [];
    var trail: seq<PageItem> := if e < totalPages - 1 then [TrailingEllipsis] else [];
    var items := [Page(1)] + lead + Buttons(s, e) + trail + [Page(totalPages)];
    assert PageNumbers(totalPages, currentPage) == items;
    var m := |lead|;
    forall i | 1 + m <= i <= 1 + m + (e - s) ensures items[i] == Page(s + i - 1 - m) {
      assert items[i] == Buttons(s, e)[i - 1 - m];
    }
  }

  /** In that layout every ellipsis marks a gap, and there is no gap without one. */
  lemma LayoutGapsMarked(items: seq<PageItem>, totalPages: int, s: int, e: int)
    requires Layout(items, totalPages, s, e)
    ensures GapsMarked(items)
  {
    var m := if s > 2 then 1 else 0;
    var w := 1 + m + (e - s);
    forall i | 0 <= i < |items| - 1
      ensures items[i].Page? && items[i + 1].Page? ==> items[i + 1].number == items[i].number + 1
      ensures !items[i].Page? ==> 0 < i && items[i - 1].Page? && items[i + 1].Page?
                                  && items[i + 1].number > items[i - 1].number + 1
    {
      if i == 0 && m == 1 {
        assert items[1] == LeadingEllipsis;
      } else if i == 0 {
        assert items[1] == Page(s);
      } else if i == 1 && m == 1 {
        assert items[2] == Page(s);
      } else if i < w {
        assert items[i] == Page(s + i - 1 - m);
        assert items[i + 1] == Page(s + i - m);
      } else if i == w {
        assert items[i] == Page(e);
      } else {
        assert items[i - 1] == Page(e);
      }
    }
  }

  /** In that layout the leading ellipsis is there exactly when the window
      starts after page 2, the trailing one exactly when it ends before the
      page before the last. */
  lemma LayoutEllipses(items: seq<PageItem>, totalPages: int, s: int, e: int)
    requires Layout(items, totalPages, s, e)
    ensures LeadingEllipsis in items <==> s > 2
    ensures TrailingEllipsis in items <==> e < totalPages - 1
  {
    var m := if s > 2 then 1 else 0;
    var w := 1 + m + (e - s);
    forall i | 0 <= i < |items|
      ensures items[i] == LeadingEllipsis ==> m == 1
      ensures items[i] == TrailingEllipsis ==> e < totalPages - 1
    {
      if 1 + m <= i <= w {
        assert items[i] == Page(s + i - 1 - m);
      }
    }
    if m == 1 {
      assert items[1] == LeadingEllipsis;
    }
    if e < totalPages - 1 {
      assert items[|items| - 2] == TrailingEllipsis;
    }
  }

  /** Every ellipsis marks a gap, and there is no gap without one. */
  lemma PageNumbersGapsMarked(totalPages: nat, currentPage: int)
    ensures GapsMarked(PageNumbers(totalPages, currentPage))
  {
    if totalPages > MaxPageButtons {
      ManyPagesLayout(totalPages, currentPage);
      LayoutGapsMarked(PageNumbers(totalPages, currentPage), totalPages,
                       Window(totalPages, currentPage).0, Window(totalPages, currentPage).1);
    }
  }

  // =====================================================================
  // Page state

  /** The sizes the rows-per-page selector offers. */
  const PageSizes: seq<int> := [50, 100, 250, 500, 1000]

  /** The table's `currentPage` and `pageSize` state. */
  class PaginationState {
    var currentPage: int
    var pageSize: int

    predicate Valid()
      reads this
    {
      currentPage >= 1 && pageSize in PageSizes
    }

    constructor()
      ensures Valid()
      ensures currentPage == 1 && pageSize == 100
    {
      currentPage := 1;
      pageSize := 100;
    }

    /** The rows the table shows for `data`. */
    function Rows<T>(data: seq<T>): seq<T>
      reads this
    {
      CurrentPageData(data, currentPage, pageSize)
    }

    /** `handlePageChange`: the page buttons only ever ask for a page from 1 on. */
    method HandlePageChange(page: int)
      requires Valid() && page >= 1
      modifies this
      ensures Valid()
      ensures currentPage == page && pageSize == old(pageSize)
    {
      currentPage := page;
    }

    /** `handlePageSizeChange`: a new size takes the table back to the first
        page, which shows the first `size` rows. */
    method HandlePageSizeChange(size: int)
      requires Valid() && size in PageSizes
      modifies this
      ensures Valid()
      ensures pageSize == size && currentPage == 1
      ensures forall data: seq<Value> {:trigger Rows(data)} :: Rows(data) == data[..Min(size, |data|)]
    {
      pageSize := size;
      currentPage := 1;
      forall data: seq<Value> ensures Rows(data) == data[..Min(size, |data|)] {
        FirstPage(data, size);
      }
    }
  }
}
