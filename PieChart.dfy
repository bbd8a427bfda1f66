/** The pie chart's segment visibility: which dataset is shown, which of its
    segments the legend has hidden, and the name the chart is saved under. */
module PieChart {
  import opened Seqs

  /** One slice of the pie: a name, a percentage and a colour. */
  datatype Segment = Segment(name: string, value: int, color: string)

  /** `DataType`: the two datasets the chart can show. */
  datatype DataType = Traffic | Device

  /** `trafficData`. */
  function TrafficData(): seq<Segment>
  {
    [ Segment("Organic Search", 35, "hsl(var(--chart-1))"),
      Segment("Direct", 28, "hsl(var(--chart-2))"),
      Segment("Social Media", 18, "hsl(var(--chart-3))"),
      Segment("Email Campaigns", 12, "hsl(var(--chart-4))"),
      Segment("Referrals", 7, "hsl(var(--chart-5))") ]
  }

  /** `deviceData`. */
  function DeviceData(): seq<Segment>
  {
    [ Segment("Desktop", 52, "hsl(var(--chart-1))"),
      Segment("Mobile", 38, "hsl(var(--chart-2))"),
      Segment("Tablet", 10, "hsl(var(--chart-3))") ]
  }

  /** The two datasets are told apart by their length. */
  lemma DatasetsDiffer()
    ensures TrafficData() != DeviceData()
  {
    assert |TrafficData()| == 5 && |DeviceData()| == 3;
  }

  /** The callback `(item) => item !== name`. */
  function IsNot(name: string): string -> bool
  {
    item => item != name
  }

  /** The callback `(item) => !hiddenSegments.includes(item.name)`. */
  function Visible(hidden: seq<string>): Segment -> bool
  {
    (item: Segment) => item.name !in hidden
  }

  /** The list `toggleSegment` builds from the previous one: every copy of a
      hidden name is removed, a name not hidden is appended. */
  function Toggle(hidden: seq<string>, name: string): seq<string>
  {
    if name in hidden then Filter(hidden, IsNot(name)) else hidden + [name]
  }

  /** A toggle flips whether `name` is hidden and no other name's: removing a
      name drops all its copies and keeps every other entry, each as often as
      before; adding one puts it at the end. */
  lemma ToggleFlipsOnlyName(hidden: seq<string>, name: string)
    ensures name in Toggle(hidden, name) <==> name !in hidden
    ensures forall other :: other != name ==> (other in Toggle(hidden, name) <==> other in hidden)
    ensures name in hidden ==>
              forall other :: other != name ==> multiset(Toggle(hidden, name))[other] == multiset(hidden)[other]
    ensures name !in hidden ==> Toggle(hidden, name) == hidden + [name]
  {
    if name in hidden {
      FilterCounts(hidden, IsNot(name));
      forall other | other != name
        ensures other in Toggle(hidden, name) <==> other in hidden
      {
        FilterMembership(hidden, IsNot(name), other);
      }
    }
  }

  /** Removal keeps the remaining entries in their order: the new list is
      the old one at the increasing positions holding other names. */
  lemma ToggleRemovalKeepsOrder(hidden: seq<string>, name: string)
    requires name in hidden
    ensures var r, idx := Toggle(hidden, name), KeptIndices(hidden, IsNot(name), 0);
            && |idx| == |r|
            && (forall i :: 0 <= i < |r| ==> idx[i] < |hidden| && r[i] == hidden[idx[i]])
            && (forall i, j :: 0 <= i < j < |r| ==> idx[i] < idx[j])
            && (forall k :: 0 <= k < |hidden| ==> (hidden[k] != name <==> k in idx))
  {
    FilterOrder(hidden, IsNot(name));
  }

  /** Toggling a name that is not hidden twice gives back the same list. */
  lemma ToggleTwiceRestores(hidden: seq<string>, name: string)
    requires name !in hidden
    ensures Toggle(Toggle(hidden, name), name) == hidden
  {
    assert name in hidden + [name];
    FilterAppend(hidden, [name], IsNot(name));
    FilterAll(hidden, IsNot(name));
  }

  /** Toggling a hidden name twice moves it, once, to the end. */
  lemma ToggleTwiceMovesToEnd(hidden: seq<string>, name: string)
    requires name in hidden
    ensures Toggle(Toggle(hidden, name), name) == Filter(hidden, IsNot(name)) + [name]
  {
    FilterMembership(hidden, IsNot(name), name);
  }

  /** `filteredData`: exactly the segments whose name is not hidden, in their
      order in the dataset. */
  lemma FilteredSegments(current: seq<Segment>, hidden: seq<string>)
    ensures forall seg :: seg in Filter(current, Visible(hidden)) <==> seg in current && seg.name !in hidden
    ensures var r, idx := Filter(current, Visible(hidden)), KeptIndices(current, Visible(hidden), 0);
            && |idx| == |r|
            && (forall i :: 0 <= i < |r| ==> idx[i] < |current| && r[i] == current[idx[i]])
            && (forall i, j :: 0 <= i < j < |r| ==> idx[i] < idx[j])
            && (forall k :: 0 <= k < |current| ==> (current[k].name !in hidden <==> k in idx))
  {
    forall seg
      ensures seg in Filter(current, Visible(hidden)) <==> seg in current && seg.name !in hidden
    {
      FilterMembership(current, Visible(hidden), seg);
    }
    FilterOrder(current, Visible(hidden));
  }

  /** The file name the chart is saved under, told apart per dataset. */
  function ChartName(active: DataType): string
  {
    if active == Traffic then "traffic-sources" else "device-distribution"
  }

  lemma ChartNamesDiffer(a: DataType, b: DataType)
    ensures ChartName(a) == ChartName(b) <==> a == b
  {
    assert "traffic-sources"[0] != "device-distribution"[0];
  }

  class PieChartView {
    var activeData: DataType
    var hiddenSegments: seq<string>

    /** The initial state: traffic data, nothing hidden. */
    constructor ()
      ensures activeData == Traffic && hiddenSegments == []
    {
      activeData := Traffic;
      hiddenSegments := [];
    }

    /** `currentData`: the traffic dataset exactly when traffic is active. */
    function CurrentData(): (r: seq<Segment>)
      reads this
      ensures r == TrafficData() <==> activeData == Traffic
      ensures r == DeviceData() <==> activeData != Traffic
    {
      DatasetsDiffer();
      if activeData == Traffic then TrafficData() else DeviceData()
    }

    /** `filteredData`: the segments of the current data the legend has not
        hidden. */
    function FilteredData(): (r: seq<Segment>)
      reads this
      ensures forall seg :: seg in r <==> seg in CurrentData() && seg.name !in hiddenSegments
    {
      FilteredSegments(CurrentData(), hiddenSegments);
      Filter(CurrentData(), Visible(hiddenSegments))
    }

    /** `toggleSegment`: the legend click on a segment. */
    method ToggleSegment(name: string)
      modifies this
      ensures hiddenSegments == Toggle(old(hiddenSegments), name)
      ensures activeData == old(activeData)
    {
      if name in hiddenSegments {
        hiddenSegments := Filter(hiddenSegments, IsNot(name));
      } else {
        hiddenSegments := hiddenSegments + [name];
      }
    }

    /** The "Traffic" and "Devices" buttons: the hidden names stay hidden. */
    method SetActiveData(d: DataType)
      modifies this
      ensures activeData == d
      ensures hiddenSegments == old(hiddenSegments)
    {
      activeData := d;
    }

    /** The chart name `handleDownload` passes to the PNG export. */
    method DownloadName() returns (name: string)
      ensures name == ChartName(activeData)
      ensures name == "traffic-sources" <==> CurrentData() == TrafficData()
    {
      name := if activeData == Traffic then "traffic-sources" else "device-distribution";
    }
  }
}
