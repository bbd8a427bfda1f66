/** The campaign table's data and the pure stages of its query pipeline:
    the row filter, the sort comparator, the export mapping and the status
    badge style. */
module Campaigns {
  import opened Seqs
  import opened Text
  import opened Sorting

  /** `DataRow`. Numbers are exact reals: the pipeline only compares them. */
  datatype Row = Row(
    id: string,
    campaign: string,
    impressions: real,
    clicks: real,
    conversions: real,
    ctr: real,
    cpc: real,
    revenue: real,
    status: string)

  /** `keyof DataRow`. */
  datatype SortKey = Id | Campaign | Impressions | Clicks | Conversions | Ctr | Cpc | Revenue | Status

  datatype Direction = Asc | Desc

  /** A field value as the comparator sees it: `typeof` is "string" or "number". */
  datatype Value = Str(s: string) | Num(n: real)

  /** `row[key]`. */
  function Field(row: Row, key: SortKey): Value
  {
    match key
    case Id => Str(row.id)
    case Campaign => Str(row.campaign)
    case Impressions => Num(row.impressions)
    case Clicks => Num(row.clicks)
    case Conversions => Num(row.conversions)
    case Ctr => Num(row.ctr)
    case Cpc => Num(row.cpc)
    case Revenue => Num(row.revenue)
    case Status => Str(row.status)
  }

  predicate IsTextKey(key: SortKey)
  {
    key == Id || key == Campaign || key == Status
  }

  /** `mockData`: the six campaigns the table shows. */
  function MockData(): seq<Row>
  {
    [ Row("1", "Summer Sale 2024", 125400.0, 3420.0, 234.0, 2.73, 1.25, 15680.0, "active"),
      Row("2", "Brand Awareness Q2", 89320.0, 2130.0, 156.0, 2.38, 0.95, 9340.0, "active"),
      Row("3", "Product Launch", 156780.0, 4890.0, 567.0, 3.12, 2.15, 34560.0, "completed"),
      Row("4", "Holiday Special", 98450.0, 2340.0, 189.0, 2.38, 1.45, 12450.0, "paused"),
      Row("5", "Mobile App Promo", 203560.0, 6780.0, 890.0, 3.33, 0.75, 45670.0, "active"),
      Row("6", "Local Services", 67890.0, 1560.0, 123.0, 2.3, 1.85, 8970.0, "active") ]
  }

  // ---------------------------------------------------------------- filter

  /** The campaign name, lower-cased, contains the lower-cased search term. */
  predicate MatchesSearch(row: Row, searchTerm: string, lower: char -> char)
  {
    Includes(Lower(row.campaign, lower), Lower(searchTerm, lower))
  }

  /** The status filter is "all" or names the row's status. */
  predicate MatchesStatus(row: Row, statusFilter: string)
  {
    statusFilter == "all" || row.status == statusFilter
  }

  /** The filter callback of `filteredAndSortedData`. */
  function KeepRow(searchTerm: string, statusFilter: string, lower: char -> char): Row -> bool
  {
    row => MatchesSearch(row, searchTerm, lower) && MatchesStatus(row, statusFilter)
  }

  /** `mockData.filter(...)`: the filter stage. */
  function FilterRows(rows: seq<Row>, searchTerm: string, statusFilter: string, lower: char -> char): seq<Row>
  {
    Filter(rows, KeepRow(searchTerm, statusFilter, lower))
  }

  /** Soundness and completeness of the filter: a row is kept exactly when it
      is in the data, its lower-cased name has the lower-cased search term at
      some position, and the filter is "all" or equals its status. */
  lemma FilterRowsKeeps(rows: seq<Row>, searchTerm: string, statusFilter: string, lower: char -> char, row: Row)
    ensures row in FilterRows(rows, searchTerm, statusFilter, lower) <==>
              && row in rows
              && (exists i: nat :: OccursAt(Lower(row.campaign, lower), Lower(searchTerm, lower), i))
              && (statusFilter == "all" || row.status == statusFilter)
  {
    FilterMembership(rows, KeepRow(searchTerm, statusFilter, lower), row);
  }

  /** With an empty search term and status "all" every row is kept, in order. */
  lemma EmptyQueryKeepsAll(rows: seq<Row>, lower: char -> char)
    ensures FilterRows(rows, "", "all", lower) == rows
  {
    assert Lower("", lower) == "";
    FilterAll(rows, KeepRow("", "all", lower));
  }

  // ------------------------------------------------------------------ sort

  /** The callback of `filtered.sort(...)` on two field values: for two
      strings `localeCompare` (arguments swapped for "desc"), for two numbers
      their difference (swapped for "desc"), and 0 for anything else. */
  function CompareValues(a: Value, b: Value, dir: Direction, localeCompare: (string, string) -> int): (r: real)
    ensures a.Num? && b.Num? ==> (r <= 0.0 <==> if dir == Asc then a.n <= b.n else b.n <= a.n)
    ensures a.Str? && b.Str? ==>
              (r <= 0.0 <==> if dir == Asc then localeCompare(a.s, b.s) <= 0 else localeCompare(b.s, a.s) <= 0)
    ensures a.Str? != b.Str? ==> r == 0.0
  {
    match (a, b)
    case (Str(x), Str(y)) => if dir == Asc then localeCompare(x, y) as real else localeCompare(y, x) as real
    case (Num(x), Num(y)) => if dir == Asc then x - y else y - x
    case _ => 0.0
  }

  /** The sort comparator for a key and direction, on whole rows. */
  function RowComparator(key: SortKey, dir: Direction, localeCompare: (string, string) -> int): (Row, Row) -> real
  {
    (a, b) => CompareValues(Field(a, key), Field(b, key), dir, localeCompare)
  }

  /** `localeCompare` is taken to be a total preorder on strings: swapping
      the arguments flips the sign, and "not after" is transitive. */
  ghost predicate LocaleOrder(localeCompare: (string, string) -> int)
  {
    && (forall x, y :: LocaleAntisymmetric(localeCompare, x, y))
    && (forall x, y, z :: LocaleTransitiveAt(localeCompare, x, y, z))
  }

  ghost predicate LocaleAntisymmetric(localeCompare: (string, string) -> int, x: string, y: string)
  {
    (localeCompare(x, y) < 0 <==> localeCompare(y, x) > 0) && (localeCompare(x, y) == 0 <==> localeCompare(y, x) == 0)
  }

  ghost predicate LocaleTransitiveAt(localeCompare: (string, string) -> int, x: string, y: string, z: string)
  {
    localeCompare(x, y) <= 0 && localeCompare(y, z) <= 0 ==> localeCompare(x, z) <= 0
  }

  /** For any one key the comparator is consistent, as `Array.prototype.sort`
      requires: all values of a key have the same type, so the mixed-type
      case never arises between two rows. */
  lemma RowComparatorConsistent(key: SortKey, dir: Direction, localeCompare: (string, string) -> int)
    requires LocaleOrder(localeCompare)
    ensures Consistent(RowComparator(key, dir, localeCompare))
  {
    var cmp := RowComparator(key, dir, localeCompare);
    forall a, b
      ensures Antisymmetric(cmp, a, b)
    {
      var u, v := Field(a, key), Field(b, key);
      if IsTextKey(key) {
        assert LocaleAntisymmetric(localeCompare, u.s, v.s);
      }
      CompareAntisymmetric(u, v, dir, localeCompare);
    }
    forall a, b, c
      ensures TransitiveAt(cmp, a, b, c)
    {
      var u, v, w := Field(a, key), Field(b, key), Field(c, key);
      if IsTextKey(key) {
        assert LocaleTransitiveAt(localeCompare, u.s, v.s, w.s);
        assert LocaleTransitiveAt(localeCompare, w.s, v.s, u.s);
      }
      CompareTransitive(u, v, w, dir, localeCompare);
    }
  }

  /** Swapping two values of the same type flips the comparison's sign. */
  lemma CompareAntisymmetric(u: Value, v: Value, dir: Direction, localeCompare: (string, string) -> int)
    requires u.Str? == v.Str?
    requires u.Str? ==> LocaleAntisymmetric(localeCompare, u.s, v.s)
    ensures var x, y := CompareValues(u, v, dir, localeCompare), CompareValues(v, u, dir, localeCompare);
            (x < 0.0 <==> y > 0.0) && (x == 0.0 <==> y == 0.0)
  {
  }

  /** "Not after" is transitive on three values of the same type. */
  lemma CompareTransitive(u: Value, v: Value, w: Value, dir: Direction, localeCompare: (string, string) -> int)
    requires u.Str? == v.Str? && v.Str? == w.Str?
    requires u.Str? ==> LocaleTransitiveAt(localeCompare, u.s, v.s, w.s) && LocaleTransitiveAt(localeCompare, w.s, v.s, u.s)
    ensures CompareValues(u, v, dir, localeCompare) <= 0.0 && CompareValues(v, w, dir, localeCompare) <= 0.0 ==>
              CompareValues(u, w, dir, localeCompare) <= 0.0
  {
  }

  /** `filteredAndSortedData`: the filtered rows, stably sorted. */
  function FilteredAndSorted(rows: seq<Row>, searchTerm: string, statusFilter: string, key: SortKey, dir: Direction,
                             lower: char -> char, localeCompare: (string, string) -> int): seq<Row>
  {
    InsertionSort(FilterRows(rows, searchTerm, statusFilter, lower), RowComparator(key, dir, localeCompare))
  }

  /** Nothing is dropped or duplicated: every row occurs in the result as
      often as in the data if it passes both tests, and not at all otherwise. */
  lemma FilteredAndSortedCounts(rows: seq<Row>, searchTerm: string, statusFilter: string, key: SortKey, dir: Direction,
                                lower: char -> char, localeCompare: (string, string) -> int)
    ensures forall row :: multiset(FilteredAndSorted(rows, searchTerm, statusFilter, key, dir, lower, localeCompare))[row] ==
              if MatchesSearch(row, searchTerm, lower) && MatchesStatus(row, statusFilter) then multiset(rows)[row] else 0
  {
    var kept := FilterRows(rows, searchTerm, statusFilter, lower);
    SortPermutes(kept, RowComparator(key, dir, localeCompare));
    FilterCounts(rows, KeepRow(searchTerm, statusFilter, lower));
  }

  /** The result is in order and the sort is stable: rows with equal keys
      keep their order from the filter stage. */
  lemma FilteredAndSortedOrdered(rows: seq<Row>, searchTerm: string, statusFilter: string, key: SortKey, dir: Direction,
                                 lower: char -> char, localeCompare: (string, string) -> int)
    requires LocaleOrder(localeCompare)
    ensures var cmp := RowComparator(key, dir, localeCompare);
            && Sorted(FilteredAndSorted(rows, searchTerm, statusFilter, key, dir, lower, localeCompare), cmp)
            && SameClasses(FilteredAndSorted(rows, searchTerm, statusFilter, key, dir, lower, localeCompare),
                           FilterRows(rows, searchTerm, statusFilter, lower), cmp)
  {
    var cmp := RowComparator(key, dir, localeCompare);
    RowComparatorConsistent(key, dir, localeCompare);
    SortSorted(FilterRows(rows, searchTerm, statusFilter, lower), cmp);
    SortStable(FilterRows(rows, searchTerm, statusFilter, lower), cmp);
  }

  /** Sorted by a numeric key: non-decreasing for "asc", non-increasing for
      "desc". */
  lemma SortedByNumber(s: seq<Row>, key: SortKey, dir: Direction, localeCompare: (string, string) -> int)
    requires !IsTextKey(key)
    requires Sorted(s, RowComparator(key, dir, localeCompare))
    ensures forall i, j :: 0 <= i < j < |s| ==>
              if dir == Asc then Field(s[i], key).n <= Field(s[j], key).n else Field(s[i], key).n >= Field(s[j], key).n
  {
    forall i, j | 0 <= i < j < |s|
      ensures if dir == Asc then Field(s[i], key).n <= Field(s[j], key).n else Field(s[i], key).n >= Field(s[j], key).n
    {
      assert RowComparator(key, dir, localeCompare)(s[i], s[j]) <= 0.0;
    }
  }

  /** Sorted by a text key: in `localeCompare` order for "asc", reversed for
      "desc". */
  lemma SortedByText(s: seq<Row>, key: SortKey, dir: Direction, localeCompare: (string, string) -> int)
    requires IsTextKey(key)
    requires Sorted(s, RowComparator(key, dir, localeCompare))
    ensures forall i, j :: 0 <= i < j < |s| ==>
              if dir == Asc then localeCompare(Field(s[i], key).s, Field(s[j], key).s) <= 0
              else localeCompare(Field(s[j], key).s, Field(s[i], key).s) <= 0
  {
    forall i, j | 0 <= i < j < |s|
      ensures if dir == Asc then localeCompare(Field(s[i], key).s, Field(s[j], key).s) <= 0
              else localeCompare(Field(s[j], key).s, Field(s[i], key).s) <= 0
    {
      assert RowComparator(key, dir, localeCompare)(s[i], s[j]) <= 0.0;
    }
  }

  /** Only campaign 4 is paused: the "paused" filter keeps it alone. */
  lemma PausedFilter(lower: char -> char)
    ensures FilterRows(MockData(), "", "paused", lower) == [MockData()[3]]
  {
    var d := MockData();
    var keep := KeepRow("", "paused", lower);
    assert Lower("", lower) == "";
    assert forall k :: 0 <= k < 6 ==> (keep(d[k]) <==> k == 3);
    assert d[1..][1..][1..][1..] == [d[4], d[5]];
    assert Filter([d[4], d[5]], keep) == [];
    assert d[1..][1..][1..] == [d[3], d[4], d[5]];
    assert Filter(d[1..][1..][1..], keep) == [d[3]];
    assert d[1..][1..] == [d[2], d[3], d[4], d[5]];
    assert d[1..] == [d[1], d[2], d[3], d[4], d[5]];
  }

  // ---------------------------------------------------------------- export

  /** One exported record: column names with their values, in column order. */
  type Record = seq<(string, Value)>

  /** The export's columns, in order. */
  function ExportColumns(): seq<string>
  {
    ["Campaign Name", "Impressions", "Clicks", "Conversions", "CTR (%)", "CPC ($)", "Revenue ($)", "Status"]
  }

  /** The `handleExport` mapping of one row: every field but `id`, renamed. */
  function ExportRow(row: Row): Record
  {
    [ ("Campaign Name", Str(row.campaign)),
      ("Impressions", Num(row.impressions)),
      ("Clicks", Num(row.clicks)),
      ("Conversions", Num(row.conversions)),
      ("CTR (%)", Num(row.ctr)),
      ("CPC ($)", Num(row.cpc)),
      ("Revenue ($)", Num(row.revenue)),
      ("Status", Str(row.status)) ]
  }

  function Columns(r: Record): seq<string>
  {
    seq(|r|, i requires 0 <= i < |r| => r[i].0)
  }

  datatype Option<T> = None | Some(value: T)

  /** The value of the first column of `r` called `name`. */
  function Lookup(r: Record, name: string): Option<Value>
  {
    if r == [] then None
    else if r[0].0 == name then Some(r[0].1)
    else Lookup(r[1..], name)
  }

  function TextAt(r: Record, name: string): Option<string>
  {
    match Lookup(r, name)
    case Some(Str(s)) => Some(s)
    case _ => None
  }

  function NumberAt(r: Record, name: string): Option<real>
  {
    match Lookup(r, name)
    case Some(Num(n)) => Some(n)
    case _ => None
  }

  /** Read a row back from an exported record, given the `id` the export
      leaves out; `None` when a column is missing or of the wrong type. */
  function ImportRow(r: Record, id: string): Option<Row>
  {
    match (TextAt(r, "Campaign Name"), NumberAt(r, "Impressions"), NumberAt(r, "Clicks"), NumberAt(r, "Conversions"),
           NumberAt(r, "CTR (%)"), NumberAt(r, "CPC ($)"), NumberAt(r, "Revenue ($)"), TextAt(r, "Status"))
    case (Some(c), Some(im), Some(cl), Some(co), Some(ctr), Some(cpc), Some(rev), Some(st)) =>
      Some(Row(id, c, im, cl, co, ctr, cpc, rev, st))
    case _ => None
  }

  /** `filteredAndSortedData.map(...)`: the records handed to the CSV export. */
  function ExportRows(rows: seq<Row>): (r: seq<Record>)
    ensures |r| == |rows|
    ensures forall i :: 0 <= i < |r| ==> Columns(r[i]) == ExportColumns()
    ensures forall i :: 0 <= i < |r| ==> ImportRow(r[i], rows[i].id) == Some(rows[i])
  {
    var r := seq(|rows|, i requires 0 <= i < |rows| => ExportRow(rows[i]));
    forall i | 0 <= i < |r|
      ensures Columns(r[i]) == ExportColumns() && ImportRow(r[i], rows[i].id) == Some(rows[i])
    {
      ExportRoundTrip(rows[i]);
    }
    r
  }

  /** Every exported record has the export's columns and reads back as the
      row it came from: the mapping loses nothing but the `id`. */
  lemma ExportRoundTrip(row: Row)
    ensures Columns(ExportRow(row)) == ExportColumns()
    ensures ImportRow(ExportRow(row), row.id) == Some(row)
  {
    var r := ExportRow(row);
    assert Columns(r) == ExportColumns();
    forall i | 0 <= i < |r|
      ensures Lookup(r, r[i].0) == Some(r[i].1)
    {
      LookupFirst(r, i);
    }
    assert TextAt(r, r[0].0) == Some(row.campaign);
    assert NumberAt(r, r[1].0) == Some(row.impressions);
    assert NumberAt(r, r[2].0) == Some(row.clicks);
    assert NumberAt(r, r[3].0) == Some(row.conversions);
    assert NumberAt(r, r[4].0) == Some(row.ctr);
    assert NumberAt(r, r[5].0) == Some(row.cpc);
    assert NumberAt(r, r[6].0) == Some(row.revenue);
    assert TextAt(r, r[7].0) == Some(row.status);
  }

  /** Looking a column up finds its first occurrence. */
  lemma {:induction false} LookupFirst(r: Record, i: nat)
    requires i < |r|
    requires forall j :: 0 <= j < i ==> r[j].0 != r[i].0
    ensures Lookup(r, r[i].0) == Some(r[i].1)
  {
    if i > 0 {
      LookupFirst(r[1..], i - 1);
    }
  }

  // ---------------------------------------------------------- status badge

  const ActiveStyle := "text-success bg-success/10"
  const PausedStyle := "text-warning bg-warning/10"
  const MutedStyle := "text-foreground-muted bg-muted/10"

  /** `getStatusColor`: the badge classes for a status. */
  function StatusColor(status: string): (r: string)
    ensures r == ActiveStyle <==> status == "active"
    ensures r == PausedStyle <==> status == "paused"
    ensures r != ActiveStyle && r != PausedStyle ==> r == MutedStyle
  {
    match status
    case "active" => ActiveStyle
    case "paused" => PausedStyle
    case "completed" => MutedStyle
    case _ => MutedStyle
  }
}
