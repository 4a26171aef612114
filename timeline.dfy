/**
 * The dashboard's line chart of cumulative steps per member. The API sends,
 * per member, the dates on which they logged steps with the running total on
 * each; the chart needs one shared date axis and one value per member per
 * axis date, so the axis is the sorted union of all dates and each member's
 * values are carried forward over the dates on which they logged nothing.
 */
module Timeline {
  import opened Results
  import opened LexOrder
  import opened Dates
  import opened Dashboard

  /** `{ date, cumulative }` */
  datatype Point = Point(date: string, cumulative: int)

  /** One key of the timeline object and the points listed under it. */
  datatype MemberSeries = MemberSeries(name: string, points: seq<Point>)

  // ---------------------------------------------------------------- the date axis

  /** The dates of one member's points. */
  function DatesOf(pts: seq<Point>): (ds: set<string>)
    ensures forall d :: d in ds <==> exists k :: 0 <= k < |pts| && pts[k].date == d
  {
    if pts == [] then {}
    else
      var ds := DatesOf(pts[..|pts| - 1]) + {pts[|pts| - 1].date};
      assert forall k :: 0 <= k < |pts| - 1 ==> pts[..|pts| - 1][k] == pts[k];
      ds
  }

  /** The union of all members' dates. */
  function AllDates(series: seq<MemberSeries>): set<string> {
    if series == [] then {}
    else AllDates(series[..|series| - 1]) + DatesOf(series[|series| - 1].points)
  }

  /** A date is in the union exactly when some member has it. */
  lemma {:induction false} AllDatesMembers(series: seq<MemberSeries>, d: string)
    ensures d in AllDates(series) <==> (exists i :: 0 <= i < |series| && d in DatesOf(series[i].points))
    decreases |series|
  {
    if series != [] {
      var n := |series|;
      var init := series[..n - 1];
      AllDatesMembers(init, d);
      if d in AllDates(init) {
        var i :| 0 <= i < n - 1 && d in DatesOf(init[i].points);
        assert series[i] == init[i];
      }
      if exists i :: 0 <= i < n && d in DatesOf(series[i].points) {
        var i :| 0 <= i < n && d in DatesOf(series[i].points);
        if i < n - 1 {
          assert init[i] == series[i];
        }
      }
    }
  }

  /** `names.forEach(n => timeline[n].forEach(d => allDates.add(d.date)))` */
  method CollectDates(series: seq<MemberSeries>) returns (allDates: set<string>)
    ensures allDates == AllDates(series)
  {
    allDates := {};
    for i := 0 to |series|
      invariant allDates == AllDates(series[..i])
    {
      assert series[..i + 1][..i] == series[..i];
      var pts := series[i].points;
      var before := allDates;
      for j := 0 to |pts|
        invariant allDates == before + DatesOf(pts[..j])
      {
        assert pts[..j + 1][..j] == pts[..j];
        allDates := allDates + {pts[j].date};
      }
      assert pts[..|pts|] == pts;
    }
    assert series[..|series|] == series;
  }

  /** `Array.from(allDates).sort()`: the distinct dates in ascending string order. */
  method SortDates(dates: set<string>) returns (sorted: seq<string>)
    ensures StrictlyAscending(sorted)
    ensures forall d :: d in sorted <==> d in dates
    ensures |sorted| == |dates|
  {
    sorted := [];
    var rest := dates;
    while rest != {}
      invariant rest <= dates
      invariant StrictlyAscending(sorted)
      invariant forall d :: d in sorted <==> d in dates && d !in rest
      invariant |sorted| + |rest| == |dates|
      decreases |rest|
    {
      var d :| d in rest;
      sorted := Insert(sorted, d);
      rest := rest - {d};
    }
  }

  // ---------------------------------------------------------------- one member's values

  /** The object `map` after `timeline[name].forEach(d => { map[d.date] = d.cumulative; })`. */
  function DateMap(pts: seq<Point>): map<string, int> {
    if pts == [] then map[]
    else DateMap(pts[..|pts| - 1])[pts[|pts| - 1].date := pts[|pts| - 1].cumulative]
  }

  /** The map has a key for exactly the member's dates. */
  lemma {:induction false} DateMapKeys(pts: seq<Point>)
    ensures DateMap(pts).Keys == DatesOf(pts)
    decreases |pts|
  {
    if pts != [] {
      DateMapKeys(pts[..|pts| - 1]);
    }
  }

  /** When a member lists a date more than once, the last record for it wins. */
  lemma {:induction false} LaterRecordWins(pts: seq<Point>, k: int)
    requires 0 <= k < |pts|
    requires forall j :: k < j < |pts| ==> pts[j].date != pts[k].date
    ensures pts[k].date in DateMap(pts)
    ensures DateMap(pts)[pts[k].date] == pts[k].cumulative
    decreases |pts|
  {
    var n := |pts|;
    if k < n - 1 {
      var init := pts[..n - 1];
      assert init[k] == pts[k];
      LaterRecordWins(init, k);
    }
  }

  /** The value shown at axis position `k`: the member's cumulative on that date when there is one,
      otherwise the value at the previous position, and 0 before anything. */
  function FillAt(axis: seq<string>, m: map<string, int>, k: int): int
    requires 0 <= k < |axis|
  {
    if axis[k] in m then m[axis[k]]
    else if k == 0 then 0
    else FillAt(axis, m, k - 1)
  }

  /** `let last = 0; sorted.map(date => { if (map[date] !== undefined) last = map[date]; return last; })`,
      with the map built first. */
  method FillSeries(pts: seq<Point>, axis: seq<string>) returns (data: seq<int>)
    ensures |data| == |axis|
    ensures forall k :: 0 <= k < |axis| ==> data[k] == FillAt(axis, DateMap(pts), k)
  {
    var m := map[];
    for j := 0 to |pts|
      invariant m == DateMap(pts[..j])
    {
      assert pts[..j + 1][..j] == pts[..j];
      m := m[pts[j].date := pts[j].cumulative];
    }
    assert pts[..|pts|] == pts;

    var last := 0;
    data := [];
    for k := 0 to |axis|
      invariant |data| == k
      invariant forall l :: 0 <= l < k ==> data[l] == FillAt(axis, m, l)
      invariant last == if k == 0 then 0 else FillAt(axis, m, k - 1)
    {
      if axis[k] in m {
        last := m[axis[k]];
      }
      data := data + [last];
    }
  }

  /** By position: the value at `k` is the member's value at the last position `j <= k` whose date
      the member has. */
  lemma {:induction false} FillIsLatestAt(axis: seq<string>, m: map<string, int>, k: int, j: int)
    requires 0 <= j <= k < |axis|
    requires axis[j] in m
    requires forall l :: j < l <= k ==> axis[l] !in m
    ensures FillAt(axis, m, k) == m[axis[j]]
    decreases k
  {
    if j < k {
      FillIsLatestAt(axis, m, k - 1, j);
    }
  }

  /** By position: before any date the member has, the value is 0. */
  lemma {:induction false} FillZeroAt(axis: seq<string>, m: map<string, int>, k: int)
    requires 0 <= k < |axis|
    requires forall l :: 0 <= l <= k ==> axis[l] !in m
    ensures FillAt(axis, m, k) == 0
    decreases k
  {
    if k > 0 {
      FillZeroAt(axis, m, k - 1);
    }
  }

  /** By date, on a sorted axis holding all the member's dates: the value at an axis date is the
      member's cumulative on its latest date not after it. */
  lemma FillIsLatestDated(axis: seq<string>, m: map<string, int>, k: int, d: string)
    requires StrictlyAscending(axis)
    requires forall e :: e in m ==> e in axis
    requires 0 <= k < |axis|
    requires d in m && LessEq(d, axis[k])
    requires forall e :: e in m && Less(d, e) ==> Less(axis[k], e)
    ensures FillAt(axis, m, k) == m[d]
  {
    var j :| 0 <= j < |axis| && axis[j] == d;
    if j > k {
      assert Less(axis[k], axis[j]);
      Asymmetric(axis[k], d);
      assert false;
    }
    forall l | j < l <= k
      ensures axis[l] !in m
    {
      assert Less(d, axis[l]);
      var a, b := axis[l], axis[k];
      AscendingAt(axis, l, k);
      if a in m {
        Asymmetric(b, a);
        Irreflexive(b);
      }
    }
    FillIsLatestAt(axis, m, k, j);
  }

  /** By date, on a sorted axis holding all the member's dates: before the member's first date the
      value is 0. */
  lemma FillBeforeFirst(axis: seq<string>, m: map<string, int>, k: int)
    requires StrictlyAscending(axis)
    requires 0 <= k < |axis|
    requires forall e :: e in m ==> Less(axis[k], e)
    ensures FillAt(axis, m, k) == 0
  {
    forall l | 0 <= l <= k
      ensures axis[l] !in m
    {
      AscendingAt(axis, l, k);
      if axis[l] in m {
        assert Less(axis[k], axis[l]);
        if l == k {
          Irreflexive(axis[k]);
        } else {
          Asymmetric(axis[l], axis[k]);
        }
      }
    }
    FillZeroAt(axis, m, k);
  }

  // ---------------------------------------------------------------- the chart

  /** One line of the chart: labelled and coloured by the member's name, its fill colour being
      that colour with `20` appended. */
  datatype Dataset = Dataset(labelText: string, data: seq<int>, borderColor: string, backgroundColor: string)

  datatype LineChart = LineChart(dates: seq<string>, labels: seq<string>, datasets: seq<Dataset>)

  function Labels(dates: seq<string>): (r: seq<string>)
    ensures |r| == |dates|
    ensures forall k :: 0 <= k < |dates| ==> r[k] == DayMonth(dates[k])
  {
    if dates == [] then [] else Labels(dates[..|dates| - 1]) + [DayMonth(dates[|dates| - 1])]
  }

  /** `ds` is the line drawn for member `s` over the date axis: labelled and coloured by the
      member's name, with the member's carried-forward value at every axis date. */
  predicate IsLineOf(ds: Dataset, s: MemberSeries, axis: seq<string>, colors: TeamColors)
    reads colors
  {
    && ds.labelText == s.name
    && ds.borderColor == colors.Color(s.name)
    && ds.backgroundColor == colors.Color(s.name) + "20"
    && |ds.data| == |axis|
    && forall k :: 0 <= k < |axis| ==> ds.data[k] == FillAt(axis, DateMap(s.points), k)
  }

  /** The callback of `names.map(name => ...)`. */
  method LineOf(s: MemberSeries, axis: seq<string>, colors: TeamColors) returns (ds: Dataset)
    ensures IsLineOf(ds, s, axis, colors)
  {
    var data := FillSeries(s.points, axis);
    var c := colors.Color(s.name);
    ds := Dataset(s.name, data, c, c + "20");
  }

  /** `names.map(name => ...)`: one line per member, in key order. */
  method Lines(series: seq<MemberSeries>, axis: seq<string>, colors: TeamColors) returns (datasets: seq<Dataset>)
    ensures |datasets| == |series|
    ensures forall i :: 0 <= i < |series| ==> IsLineOf(datasets[i], series[i], axis, colors)
  {
    datasets := [];
    for i := 0 to |series|
      invariant |datasets| == i
      invariant forall l :: 0 <= l < i ==> IsLineOf(datasets[l], series[l], axis, colors)
    {
      var ds := LineOf(series[i], axis, colors);
      datasets := datasets + [ds];
    }
  }

  /** `loadTimeline`, given the timeline object's keys and points in key order and the page's
      colour map: nothing when there are no members or no dates, otherwise the chart. */
  method LoadTimeline(series: seq<MemberSeries>, colors: TeamColors) returns (chart: Option<LineChart>)
    ensures chart.None? <==> series == [] || AllDates(series) == {}
    ensures chart.Some? ==> StrictlyAscending(chart.value.dates)
    ensures chart.Some? ==> forall d :: d in chart.value.dates <==> d in AllDates(series)
    ensures chart.Some? ==> chart.value.labels == Labels(chart.value.dates)
    ensures chart.Some? ==> |chart.value.datasets| == |series|
    ensures chart.Some? ==> forall i :: 0 <= i < |series| ==>
      IsLineOf(chart.value.datasets[i], series[i], chart.value.dates, colors)
  {
    if |series| == 0 {
      return None;
    }
    var allDates := CollectDates(series);
    var sorted := SortDates(allDates);
    if |sorted| == 0 {
      return None;
    }

    var datasets := Lines(series, sorted, colors);
    chart := Some(LineChart(sorted, Labels(sorted), datasets));
  }

  /** On the chart, member `i`'s value at an axis date is their cumulative on their latest logged
      date not after it, the last record winning for a date listed twice. */
  lemma ChartShowsLatestCumulative(series: seq<MemberSeries>, dates: seq<string>, i: int, k: int, p: int)
    requires StrictlyAscending(dates)
    requires forall d :: d in dates <==> d in AllDates(series)
    requires 0 <= i < |series| && 0 <= k < |dates|
    requires 0 <= p < |series[i].points|
    requires forall q :: p < q < |series[i].points| ==> series[i].points[q].date != series[i].points[p].date
    requires LessEq(series[i].points[p].date, dates[k])
    requires forall q :: 0 <= q < |series[i].points| && Less(series[i].points[p].date, series[i].points[q].date) ==>
      Less(dates[k], series[i].points[q].date)
    ensures FillAt(dates, DateMap(series[i].points), k) == series[i].points[p].cumulative
  {
    var pts := series[i].points;
    var m := DateMap(pts);
    DateMapKeys(pts);
    LaterRecordWins(pts, p);
    forall e | e in m
      ensures e in dates
    {
      assert e in DatesOf(pts);
      AllDatesMembers(series, e);
    }
    forall e | e in m && Less(pts[p].date, e)
      ensures Less(dates[k], e)
    {
      assert e in DatesOf(pts);
      var q :| 0 <= q < |pts| && pts[q].date == e;
    }
    FillIsLatestDated(dates, m, k, pts[p].date);
  }
}
