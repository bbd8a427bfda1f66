/** The `DataTable` component's view state and the handlers that update it:
    search box, status dropdown, sortable headers and pagination controls. */
module DataTable {
  import opened Sorting
  import opened Campaigns
  import Pagination

  /** The sort order after a click on the header of `key`: the same key flips
      the direction, another key is taken up in descending order. */
  function NextSort(current: SortKey, dir: Direction, key: SortKey): (r: (SortKey, Direction))
    ensures r.0 == key
    ensures current == key ==> r.1 != dir
    ensures current != key ==> r.1 == Desc
  {
    if current == key then (current, if dir == Asc then Desc else Asc)
    else (key, Desc)
  }

  /** Two clicks on the same header: on the current key they restore the
      direction, on another key they leave it ascending. */
  lemma NextSortTwice(current: SortKey, dir: Direction, key: SortKey)
    ensures var (k1, d1) := NextSort(current, dir, key);
            NextSort(k1, d1, key) == if current == key then (current, dir) else (key, Asc)
  {
  }

  class DataTableView {
    /** `String.prototype.toLowerCase`, one character at a time. */
    const lower: char -> char
    /** `String.prototype.localeCompare`. */
    const localeCompare: (string, string) -> int

    var searchTerm: string
    var sortKey: SortKey
    var sortDirection: Direction
    var statusFilter: string
    var currentPage: int

    /** Every control that sets the page passes a page number from 1 up. */
    ghost predicate Valid()
      reads this
    {
      currentPage >= 1
    }

    /** The component's initial state. */
    constructor (lower: char -> char, localeCompare: (string, string) -> int)
      ensures Valid()
      ensures this.lower == lower && this.localeCompare == localeCompare
      ensures searchTerm == "" && statusFilter == "all"
      ensures sortKey == Revenue && sortDirection == Desc
      ensures currentPage == 1
    {
      this.lower := lower;
      this.localeCompare := localeCompare;
      searchTerm := "";
      sortKey := Revenue;
      sortDirection := Desc;
      statusFilter := "all";
      currentPage := 1;
    }

    /** The value of `filteredAndSortedData` for the current state. */
    function FilteredAndSortedData(): seq<Row>
      reads this
    {
      FilteredAndSorted(MockData(), searchTerm, statusFilter, sortKey, sortDirection, lower, localeCompare)
    }

    /** The `useMemo` callback: filter `mockData`, then sort the filtered
        array in place with the comparator for the current key. */
    method ComputeFilteredAndSorted() returns (r: seq<Row>)
      ensures r == FilteredAndSortedData()
    {
      var filtered := FilterRows(MockData(), searchTerm, statusFilter, lower);
      var a := new Row[|filtered|](i requires 0 <= i < |filtered| => filtered[i]);
      assert a[..] == filtered;
      SortInPlace(a, RowComparator(sortKey, sortDirection, localeCompare));
      r := a[..];
    }

    /** `totalPages`. */
    function TotalPages(): (r: nat)
      reads this
      ensures (r - 1) * Pagination.ItemsPerPage < |FilteredAndSortedData()| <= r * Pagination.ItemsPerPage
    {
      Pagination.TotalPages(|FilteredAndSortedData()|)
    }

    /** `paginatedData`: at most four rows, the run of the sorted rows that
        starts at `(currentPage - 1) * 4`; empty exactly when the current page
        is past the last one, which nothing prevents. */
    function PaginatedData(): (r: seq<Row>)
      reads this
      requires Valid()
      ensures |r| <= Pagination.ItemsPerPage
      ensures var rows, start := FilteredAndSortedData(), (currentPage - 1) * Pagination.ItemsPerPage;
              forall i :: 0 <= i < |r| ==> start + i < |rows| && r[i] == rows[start + i]
      ensures r == [] <==> currentPage > TotalPages()
    {
      var rows := FilteredAndSortedData();
      Pagination.PageIsRun(rows, currentPage);
      Pagination.PageEmptyIffPastEnd(rows, currentPage);
      Pagination.Page(rows, currentPage)
    }

    /** The page-number buttons: consecutive existing pages, at most five,
        including the current one whenever it exists. */
    function PageNumbers(): (r: seq<int>)
      reads this
      ensures |r| == Pagination.Min(TotalPages(), Pagination.WindowWidth)
      ensures forall i :: 0 <= i < |r| ==> 1 <= r[i] <= TotalPages()
      ensures forall i :: 0 < i < |r| ==> r[i] == r[i - 1] + 1
      ensures 1 <= currentPage <= TotalPages() ==> currentPage in r
    {
      Pagination.PageWindowBounds(TotalPages(), currentPage);
      Pagination.PageWindow(TotalPages(), currentPage)
    }

    /** `handleSort`: apply the toggle rule and go back to page 1. */
    method HandleSort(key: SortKey)
      requires Valid()
      modifies this
      ensures Valid()
      ensures (sortKey, sortDirection) == NextSort(old(sortKey), old(sortDirection), key)
      ensures currentPage == 1
      ensures searchTerm == old(searchTerm) && statusFilter == old(statusFilter)
    {
      if sortKey == key {
        sortDirection := if sortDirection == Asc then Desc else Asc;
      } else {
        sortKey := key;
        sortDirection := Desc;
      }
      currentPage := 1;
    }

    /** Typing in the search box: the page number is kept as it is. */
    method SetSearchTerm(term: string)
      requires Valid()
      modifies this
      ensures Valid()
      ensures searchTerm == term
      ensures statusFilter == old(statusFilter) && sortKey == old(sortKey) && sortDirection == old(sortDirection)
      ensures currentPage == old(currentPage)
    {
      searchTerm := term;
    }

    /** Picking a status in the dropdown: the page number is kept as it is. */
    method SetStatusFilter(filter: string)
      requires Valid()
      modifies this
      ensures Valid()
      ensures statusFilter == filter
      ensures searchTerm == old(searchTerm) && sortKey == old(sortKey) && sortDirection == old(sortDirection)
      ensures currentPage == old(currentPage)
    {
      statusFilter := filter;
    }

    /** "Previous": shown only when there is more than one page, disabled on
        page 1. */
    method PreviousPage()
      requires Valid() && TotalPages() > 1 && currentPage != 1
      modifies this`currentPage
      ensures Valid()
      ensures currentPage == old(currentPage) - 1
    {
      currentPage := currentPage - 1;
    }

    /** "Next": shown only when there is more than one page, disabled on the
        last page. It is not disabled past the last page. */
    method NextPage()
      requires Valid() && TotalPages() > 1 && currentPage != TotalPages()
      modifies this`currentPage
      ensures Valid()
      ensures currentPage == old(currentPage) + 1
    {
      currentPage := currentPage + 1;
    }

    /** A page-number button. */
    method GoToPage(page: int)
      requires Valid() && TotalPages() > 1 && page in PageNumbers()
      modifies this`currentPage
      ensures Valid()
      ensures currentPage == page
    {
      currentPage := page;
    }

    /** `handleExport`: the export records of every filtered and sorted row,
        not only those of the current page. */
    method HandleExport() returns (data: seq<Record>)
      ensures |data| == |FilteredAndSortedData()|
      ensures forall i :: 0 <= i < |data| ==> Columns(data[i]) == ExportColumns()
      ensures forall i :: 0 <= i < |data| ==>
                ImportRow(data[i], FilteredAndSortedData()[i].id) == Some(FilteredAndSortedData()[i])
    {
      var rows := ComputeFilteredAndSorted();
      data := ExportRows(rows);
    }
  }
}
