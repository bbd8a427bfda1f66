# Campaign table and pie-chart visibility, modelled in Dafny

This project models the logic of an analytics dashboard's two interactive
widgets.

The **campaign table** (`DataTable`) holds six campaign rows and five pieces
of view state: the search term, the status filter, the sort key, the sort
direction and the current page. From these it derives what is shown:

- It keeps the rows whose lower-cased campaign name contains the lower-cased
  search term and whose status matches the filter ("all" matches every status).
- It sorts the kept rows in place. Strings are compared with `localeCompare`,
  numbers by subtraction, and mixed values compare as equal. The direction is
  either ascending or descending.
- It cuts out page `currentPage` of four rows with `slice`, counts
  `ceil(n / 4)` pages and shows a row of at most five page-number buttons.
- It maps all filtered and sorted rows, not only the current page, into
  export records with renamed columns.

Clicking a column header either flips the direction or switches to the new
key in descending order, and goes back to page 1. The status badge style
falls back to the muted style for any status other than "active" and
"paused".

The **pie chart** shows the traffic dataset or the device dataset. A click on
a legend entry toggles that segment's name in a list of hidden names. The
chart draws the current dataset minus the hidden segments, in dataset order.
It is saved under a file name chosen by the dataset.

Layout:

| file | module | contents |
|---|---|---|
| `Seqs.dfy` | `Seqs` | `Array.prototype.filter`: membership, counts, concatenation, order of the kept elements |
| `Text.dfy` | `Text` | `toLowerCase` and `String.prototype.includes`, the latter proved equal to "occurs at some position" |
| `Sorting.dfy` | `Sorting` | comparator consistency, insertion sort as a function and as an in-place array method; permutation, sortedness, stability; a stable sorted permutation is unique |
| `Pagination.dfy` | `Pagination` | JavaScript `slice`, the page, the page count, coverage, the page-number window |
| `Campaigns.dfy` | `Campaigns` | the rows, the filter, the comparator, the filtered-and-sorted result, the export mapping, the status style |
| `DataTable.dfy` | `DataTable` | the table's view state as a class whose methods are the event handlers |
| `PieChart.dfy` | `PieChart` | the datasets, the toggle, the segment filter, the chart's view state as a class |

Modelling choices:

- **Lower-casing and locale comparison are parameters.** `toLowerCase` is a
  per-character mapping `lower: char -> char`. `localeCompare` is a function
  `(string, string) -> int`. Lemmas that need an order require `LocaleOrder`:
  swapping the arguments flips the sign, and "not after" is transitive.
- **The sort algorithm is an insertion sort.** The array is sorted in place
  (`Sorting.SortInPlace`), and the result is proved to be a sorted, stable
  permutation. JavaScript's `Array.prototype.sort` is stable (ECMA-262, since
  the 2019 edition), and `Sorting.StableSortIsInsertionSort` proves that any
  stable sorted permutation equals the insertion sort's result. So the model
  gives the same order as any conforming engine.
- **Numbers are exact reals.** The pipeline only compares and subtracts them.
- **The page is not clamped.** The page number is a plain integer held at
  1 or more. The model follows the code on three points where an idealised
  description of the widget says otherwise:
  - `totalPages` is 0 when no row matches, not at least 1.
  - Changing the search term or the status filter does not reset the page.
  - A page past the last one is shown empty.

## Model

| member | source | states |
|---|---|---|
| Seqs.Filter | src/components/DataTable.tsx:116-123 | the kept elements are no more than the input's, and each comes from the input and passes the test |
| Seqs.FilterCounts | src/components/DataTable.tsx:116-123 | each value occurs in the result as often as in the input if it passes the test, and not at all otherwise |
| Seqs.FilterMembership | src/components/charts/PieChart.tsx:36-38 | a value is in the result exactly when it is in the input and passes the test |
| Seqs.FilterAppend | src/components/charts/PieChart.tsx:48-50 | filtering a concatenation is concatenating the filtered parts |
| Seqs.FilterAll | src/components/DataTable.tsx:116-123 | when every element passes, the filter returns its input |
| Seqs.FilterOrder | src/components/charts/PieChart.tsx:36-38 | the result is the input at an increasing list of positions, exactly those whose element passes |
| Text.Includes | src/components/DataTable.tsx:117-119 | `includes` is true exactly when the needle occurs at some position; the empty needle is always found, a longer needle never |
| Sorting.SortInPlace | src/components/DataTable.tsx:125-140 | sorting the array in place leaves the insertion sort of its old contents |
| Sorting.SortPermutes | src/components/DataTable.tsx:125-140 | the sort's result is a permutation of its input |
| Sorting.SortSorted | src/components/DataTable.tsx:125-140 | under a consistent comparator the result is sorted: no element compares after a later one |
| Sorting.SortStable | src/components/DataTable.tsx:125-140 | elements that compare equal keep their relative order |
| Sorting.StableSortUnique | src/components/DataTable.tsx:125-140 | two sorted sequences with the same equal-element runs in the same order are the same sequence |
| Sorting.StableSortIsInsertionSort | src/components/DataTable.tsx:125-140 | any sorted, stable rearrangement of the input equals the insertion sort |
| Pagination.RelativeIndex | src/components/DataTable.tsx:147 | a `slice` argument becomes a position within the sequence, the argument itself when it is in range |
| Pagination.Page | src/components/DataTable.tsx:145-148 | a page has at most four rows |
| Pagination.PageIsRun | src/components/DataTable.tsx:146-147 | page p is the run of rows from (p-1)*4, four long or cut short by the end |
| Pagination.TotalPages | src/components/DataTable.tsx:150 | the page count is the fewest pages of four that hold all rows, and it is 0 exactly when there are no rows |
| Pagination.FirstPagesArePrefix | src/components/DataTable.tsx:145-150 | pages 1 to n laid end to end are the first 4n rows, or all of them |
| Pagination.PagesCoverAll | src/components/DataTable.tsx:145-150 | pages 1 to totalPages laid end to end are exactly the rows |
| Pagination.PageEmptyIffPastEnd | src/components/DataTable.tsx:145-150 | a page is empty exactly when its number exceeds the page count |
| Pagination.PageWindowIsClampedRun | src/components/DataTable.tsx:402-412 | the buttons are min(totalPages, 5) consecutive pages starting two before the current page, held inside the existing pages |
| Pagination.PageWindowBounds | src/components/DataTable.tsx:402-412 | every button is an existing page, consecutive buttons differ by one, and the current page has a button whenever it exists |
| Campaigns.FilterRowsKeeps | src/components/DataTable.tsx:116-123 | a row is kept exactly when its lower-cased name contains the lower-cased term and the filter is "all" or its status |
| Campaigns.EmptyQueryKeepsAll | src/components/DataTable.tsx:116-123 | an empty term with status "all" keeps every row in order |
| Campaigns.PausedFilter | src/components/DataTable.tsx:34-123 | the "paused" filter keeps exactly one of the six campaigns |
| Campaigns.CompareValues | src/components/DataTable.tsx:125-140 | two numbers compare by their order, reversed for "desc"; two strings by `localeCompare`, reversed for "desc"; mixed values compare equal |
| Campaigns.RowComparatorConsistent | src/components/DataTable.tsx:125-140 | for every key and direction the row comparator is a consistent comparator when `localeCompare` is |
| Campaigns.FilteredAndSortedCounts | src/components/DataTable.tsx:115-143 | the result holds each row as often as the data does if it passes both tests, and not at all otherwise |
| Campaigns.FilteredAndSortedOrdered | src/components/DataTable.tsx:115-143 | the result is sorted by the comparator and keeps the filter-stage order of rows that compare equal |
| Campaigns.SortedByNumber | src/components/DataTable.tsx:135-136 | a sorted result is non-decreasing in a numeric key for "asc" and non-increasing for "desc" |
| Campaigns.SortedByText | src/components/DataTable.tsx:129-133 | a sorted result is in `localeCompare` order of a text key for "asc" and in reverse order for "desc" |
| Campaigns.ExportRows | src/components/DataTable.tsx:166-175 | one record per row, each with the eight renamed columns in order, each reading back as its row |
| Campaigns.ExportRoundTrip | src/components/DataTable.tsx:166-175 | a row's record has the export's columns and reads back as the row, given its id |
| Campaigns.StatusColor | src/components/DataTable.tsx:185-196 | the active style exactly for "active", the warning style exactly for "paused", the muted style for every other status |
| DataTable.NextSort | src/components/DataTable.tsx:152-158 | the clicked key becomes the sort key; the direction flips if it was the sort key and is "desc" otherwise |
| DataTable.NextSortTwice | src/components/DataTable.tsx:152-158 | two clicks on the current key restore the direction; two clicks on another key leave it ascending |
| DataTable.DataTableView.constructor | src/components/DataTable.tsx:107-111 | the initial state: empty search, status "all", revenue descending, page 1 |
| DataTable.DataTableView.ComputeFilteredAndSorted | src/components/DataTable.tsx:115-143 | filtering and then sorting an array in place yields the filtered-and-sorted rows |
| DataTable.DataTableView.TotalPages | src/components/DataTable.tsx:150 | the page count is the fewest pages of four that hold the filtered rows |
| DataTable.DataTableView.PaginatedData | src/components/DataTable.tsx:145-148 | at most four rows, the run of sorted rows from (currentPage-1)*4, empty exactly when the page is past the last |
| DataTable.DataTableView.PageNumbers | src/components/DataTable.tsx:402-412 | min(totalPages, 5) consecutive existing pages that include the current page when it exists |
| DataTable.DataTableView.HandleSort | src/components/DataTable.tsx:152-160 | the sort follows the toggle rule, the page goes back to 1, search and status filter are unchanged |
| DataTable.DataTableView.SetSearchTerm | src/components/DataTable.tsx:237 | the search term changes, and the page number and everything else stay |
| DataTable.DataTableView.SetStatusFilter | src/components/DataTable.tsx:251-261 | the status filter changes, and the page number and everything else stay |
| DataTable.DataTableView.PreviousPage | src/components/DataTable.tsx:393-394 | available on any page but the first when there is more than one page; goes one page back |
| DataTable.DataTableView.NextPage | src/components/DataTable.tsx:433-434 | available on any page but the last when there is more than one page; goes one page forward, even past the end |
| DataTable.DataTableView.GoToPage | src/components/DataTable.tsx:419 | a page-number button sets the page to its number |
| DataTable.DataTableView.HandleExport | src/components/DataTable.tsx:162-177 | the export holds one record per filtered and sorted row, in order, each reading back as its row |
| PieChart.ToggleFlipsOnlyName | src/components/charts/PieChart.tsx:46-52 | a toggle flips whether the name is hidden and no other name's; removal keeps each other entry as often as before; adding appends at the end |
| PieChart.ToggleRemovalKeepsOrder | src/components/charts/PieChart.tsx:48-49 | removal leaves the other entries in their order: the old list at the increasing positions of other names |
| PieChart.ToggleTwiceRestores | src/components/charts/PieChart.tsx:46-52 | toggling a name that is not hidden twice restores the list |
| PieChart.ToggleTwiceMovesToEnd | src/components/charts/PieChart.tsx:46-52 | toggling a hidden name twice leaves one copy of it, at the end |
| PieChart.FilteredSegments | src/components/charts/PieChart.tsx:36-38 | the drawn segments are exactly those whose name is not hidden, in dataset order |
| PieChart.ChartNamesDiffer | src/components/charts/PieChart.tsx:41-42 | the two datasets are saved under different names |
| PieChart.PieChartView.constructor | src/components/charts/PieChart.tsx:32-33 | the initial state: traffic data, nothing hidden |
| PieChart.PieChartView.CurrentData | src/components/charts/PieChart.tsx:35 | the traffic dataset is shown exactly when traffic is active, the device dataset otherwise |
| PieChart.PieChartView.FilteredData | src/components/charts/PieChart.tsx:36-38 | a segment is drawn exactly when it is in the current dataset and its name is not hidden |
| PieChart.PieChartView.ToggleSegment | src/components/charts/PieChart.tsx:46-52 | the hidden list becomes its toggle by the name; the dataset stays |
| PieChart.PieChartView.SetActiveData | src/components/charts/PieChart.tsx:145-157 | switching datasets keeps the hidden list |
| PieChart.PieChartView.DownloadName | src/components/charts/PieChart.tsx:40-44 | the chart is saved as "traffic-sources" exactly when the traffic dataset is shown, as "device-distribution" otherwise |

## Left out

- CSV serialisation and the file download after the export mapping (`exportToCSV`, `Papa.unparse`, Blob and DOM calls): foreign library code and I/O. `HandleExport` stops at the records handed over.
- PNG rasterisation of the chart (`downloadChartAsPNG`, `html2canvas`): DOM and canvas I/O. `DownloadName` stops at the name handed over.
- The `isLoading` flag, the `try`/`catch` logging around the export, rendering, animation and display formatting (`toLocaleString`, `toFixed`, the "Showing x to y" caption): presentation only.
- The tooltip, the legend's layout and the segment labels of the pie chart (`CustomTooltip`, `CustomLabel`): rendering, with floating-point trigonometry.
- The metric cards, the revenue and bar charts, navigation, dashboard layout and skeleton loaders: timers, floating-point formatting and layout, with no logic to state.
- Text.Lower: lower-casing is per character, through a parameter; full Unicode `toLowerCase`, where one character can become several, is not modelled.
- Campaigns.CompareValues: numbers are exact reals, so floating-point rounding of the subtraction is not modelled; only its sign is used.
- Sorting.SortInPlace: the engine's own sort algorithm is not modelled; insertion sort stands in for it, and `Sorting.StableSortIsInsertionSort` shows that every stable sort gives the same result.
- The status filter is any string here; the dropdown only offers "all", "active", "paused" and "completed".
