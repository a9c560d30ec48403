/** The older variant of the app, src/App.tsx, over points that carry a real
    `filterVal` instead of a year: the range filter, the slider histogram, the
    initial range, and one group per decade group with its legend caption. */
module SrcApp {
  import opened Seqs
  import opened Numbers
  import opened Histograms
  import opened DataUtils

  /** A generated point: `{x, y, filterVal}`. */
  datatype SrcPoint = SrcPoint(x: real, y: real, filterVal: real)

  /** The value ranges and bins compare. */
  const FilterKey: SrcPoint -> real := (d: SrcPoint) => d.filterVal

  /** `filterPointsByRange(range)`: the points with `range[0] <= filterVal <= range[1]`, in order. */
  function FilterPointsByRange(data: seq<SrcPoint>, lo: real, hi: real): (r: seq<SrcPoint>)
    ensures forall d :: d in r <==> d in data && lo <= d.filterVal <= hi
    ensures IsSubsequence(r, data)
    ensures forall d :: multiset(r)[d] == if lo <= d.filterVal <= hi then multiset(data)[d] else 0
  {
    FilterMultiset(data, Closed(FilterKey, lo, hi));
    FilterIsSubsequence(data, Closed(FilterKey, lo, hi));
    Filter(data, Closed(FilterKey, lo, hi))
  }

  // ---------------------------------------------------------------------------
  // Initial range
  // ---------------------------------------------------------------------------

  /** The `filterVal`s of the points. */
  function FilterVals(data: seq<SrcPoint>): (vs: seq<real>)
    ensures |vs| == |data|
    ensures forall k :: 0 <= k < |data| ==> vs[k] == data[k].filterVal
  {
    seq(|data|, k requires 0 <= k < |data| => data[k].filterVal)
  }

  /** `[minDataVal, maxDataVal]`, the rounded smallest and largest values:
      the initial range and the slider's bounds. */
  function InitialRange(data: seq<SrcPoint>): (r: Option<(int, int)>)
    ensures r.None? <==> |data| == 0
    ensures r.Some? ==> r.value.0 <= r.value.1
    ensures r.Some? ==> forall k :: 0 <= k < |data| ==>
              Round(data[k].filterVal) >= r.value.0 && Round(data[k].filterVal) <= r.value.1
    ensures r.Some? ==> exists k :: 0 <= k < |data| && r.value.0 == Round(data[k].filterVal)
    ensures r.Some? ==> exists k :: 0 <= k < |data| && r.value.1 == Round(data[k].filterVal)
  {
    var lo, hi := RoundedMin(FilterVals(data)), RoundedMax(FilterVals(data));
    if lo.None? || hi.None? then None
    else
      assert lo.value <= Round(data[0].filterVal) <= hi.value;
      Some((lo.value, hi.value))
  }

  /** The initial range can leave out the extreme points: a smallest value
      that rounds up (here 1970.6 to 1971) lies below the range, and the
      slider, bounded by the same numbers, never reaches it. */
  lemma InitialRangeDropsExtremes()
    ensures var data := [SrcPoint(0.0, 0.0, 1970.6), SrcPoint(0.0, 0.0, 2000.0)];
      && InitialRange(data) == Some((1971, 2000))
      && SrcPoint(0.0, 0.0, 1970.6) !in FilterPointsByRange(data, 1971.0, 2000.0)
  {
    var data := [SrcPoint(0.0, 0.0, 1970.6), SrcPoint(0.0, 0.0, 2000.0)];
    var vs := FilterVals(data);
    assert vs == [1970.6, 2000.0];
    assert Round(1970.6) == 1971;
    assert Round(2000.0) == 2000;
  }

  /** A range that covers every point: the floor of the smallest value and the
      ceiling of the largest. */
  function CoveringRange(data: seq<SrcPoint>): (r: Option<(int, int)>)
    ensures r.None? <==> |data| == 0
    ensures r.Some? ==> r.value.0 <= r.value.1
    ensures r.Some? ==> forall k :: 0 <= k < |data| ==>
              r.value.0 as real <= data[k].filterVal <= r.value.1 as real
  {
    if |data| == 0 then None
    else
      var vs := FilterVals(data);
      var lo, hi := Floor(MinOf(vs)), Ceil(MaxOf(vs));
      assert lo as real <= vs[0] <= hi as real;
      Some((lo, hi))
  }

  /** With the covering range the filter keeps every point, in order. */
  lemma CoveringRangeKeepsAll(data: seq<SrcPoint>)
    requires |data| > 0
    ensures CoveringRange(data).Some?
    ensures FilterPointsByRange(data, CoveringRange(data).value.0 as real, CoveringRange(data).value.1 as real) == data
  {
    var r := CoveringRange(data).value;
    FilterAll(data, Closed(FilterKey, r.0 as real, r.1 as real));
  }

  // ---------------------------------------------------------------------------
  // Histogram
  // ---------------------------------------------------------------------------

  /** `generateHistogramData()`: `ceil(max - min)` one-unit bins from
      `floor(min)`, without the client's guard for no data. */
  function SrcHistogram(data: seq<SrcPoint>, minVal: real, maxVal: real): (bins: seq<Bin>)
    ensures |bins| == BinCount(minVal, maxVal)
  {
    HistogramOf(data, FilterKey, minVal, maxVal)
  }

  /** Bin `i` starts at `floor(min) + i` and counts the points with
      `filterVal` in `[arg, arg + 1)`. */
  lemma SrcHistogramBins(data: seq<SrcPoint>, minVal: real, maxVal: real, i: nat)
    requires i < BinCount(minVal, maxVal)
    ensures SrcHistogram(data, minVal, maxVal)[i].arg == Floor(minVal) + i
    ensures SrcHistogram(data, minVal, maxVal)[i].val ==
            Count(data, HalfOpen(FilterKey, (Floor(minVal) + i) as real, (Floor(minVal) + i + 1) as real))
  {
    BinsAt(data, FilterKey, Floor(minVal), BinCount(minVal, maxVal), i);
  }

  /** Together the bins count the points in `[floor(min), floor(min) + n)`,
      each once. */
  lemma SrcHistogramTotal(data: seq<SrcPoint>, minVal: real, maxVal: real)
    ensures BinTotal(SrcHistogram(data, minVal, maxVal)) ==
            Count(data, HalfOpen(FilterKey, Floor(minVal) as real, (Floor(minVal) + BinCount(minVal, maxVal)) as real))
  {
    BinsTotal(data, FilterKey, Floor(minVal), BinCount(minVal, maxVal));
  }

  // ---------------------------------------------------------------------------
  // Decade groups
  // ---------------------------------------------------------------------------

  /** The end of a decade group: a number, or `Infinity` for the last one. */
  datatype Upper = Bounded(end: int) | Unbounded

  /** `{start, end, color}` as `getDecadeGroups` produces it; the list itself
      is an input here. */
  datatype Decade = Decade(start: int, end: Upper, color: string)

  /** A point as the src scatter plot receives it: `{x, y}`. */
  datatype XY = XY(x: real, y: real)

  datatype SrcGroup = SrcGroup(points: seq<XY>, color: string, caption: string)

  /** `filterVal >= start && filterVal < end`; with `end = Infinity` the second
      half always holds. */
  function InDecade(d: Decade): SrcPoint -> bool
  {
    match d.end
    case Bounded(e) => HalfOpen(FilterKey, d.start as real, e as real)
    case Unbounded => AtLeast(FilterKey, d.start as real)
  }

  /** `` `${start}${end === Infinity ? "+" : `-${end}`}` ``. */
  function DecadeCaption(d: Decade): (s: string)
    ensures |s| >= 2
    ensures s[|s| - 1] == '+' <==> d.end.Unbounded?
  {
    IntToStringEndsInDigit(d.start);
    match d.end
    case Bounded(e) => IntToStringEndsInDigit(e); IntToString(d.start) + "-" + IntToString(e)
    case Unbounded => IntToString(d.start) + "+"
  }

  function ToXY(p: SrcPoint): XY
  {
    XY(p.x, p.y)
  }

  /** Each point's coordinates, in order. */
  function ToXYs(s: seq<SrcPoint>): (r: seq<XY>)
    ensures |r| == |s|
    ensures forall k :: 0 <= k < |s| ==> r[k] == ToXY(s[k])
  {
    seq(|s|, k requires 0 <= k < |s| => ToXY(s[k]))
  }

  /** The group of one decade. */
  function DecadeGroup(filtered: seq<SrcPoint>, d: Decade): (g: SrcGroup)
    ensures |g.points| == Count(filtered, InDecade(d))
  {
    SrcGroup(ToXYs(Filter(filtered, InDecade(d))), d.color, DecadeCaption(d))
  }

  /** `decadeGroups.map(...)`: one group per decade group, in order, empty ones kept. */
  function DecadeGroups(filtered: seq<SrcPoint>, decades: seq<Decade>): (groups: seq<SrcGroup>)
    ensures |groups| == |decades|
  {
    seq(|decades|, i requires 0 <= i < |decades| => DecadeGroup(filtered, decades[i]))
  }

  /** Group `i` has the colour of decade `i`, as many points as there are
      filtered points in it, and holds the `{x, y}` of each of them, in their
      order and with their repeats. */
  lemma DecadeGroupAt(filtered: seq<SrcPoint>, decades: seq<Decade>, i: nat)
    requires i < |decades|
    ensures var g, d := DecadeGroups(filtered, decades)[i], decades[i];
      && g.color == d.color
      && g.caption == DecadeCaption(d)
      && |g.points| == Count(filtered, InDecade(d))
      && (forall p :: p in filtered && InDecade(d)(p) ==> ToXY(p) in g.points)
      && (forall q :: q in g.points ==> exists p :: p in filtered && InDecade(d)(p) && ToXY(p) == q)
      && exists s :: Selects(s, filtered, InDecade(d)) && g.points == ToXYs(s)
  {
    var d := decades[i];
    var members := Filter(filtered, InDecade(d));
    var g := DecadeGroups(filtered, decades)[i];
    assert g.points == ToXYs(members);
    FilterSelects(filtered, InDecade(d));
    forall p | p in filtered && InDecade(d)(p) ensures ToXY(p) in g.points {
      var k :| 0 <= k < |members| && members[k] == p;
      assert g.points[k] == ToXY(p);
    }
    forall q | q in g.points ensures exists p :: p in filtered && InDecade(d)(p) && ToXY(p) == q {
      var k :| 0 <= k < |g.points| && g.points[k] == q;
      assert members[k] in members;
    }
  }

  /** Decade groups that follow each other without gap or overlap, the last
      one open-ended. */
  predicate Chained(decades: seq<Decade>)
  {
    && |decades| > 0
    && decades[|decades| - 1].end.Unbounded?
    && (forall i :: 0 <= i < |decades| - 1 ==>
          decades[i].end.Bounded? && decades[i].start <= decades[i].end.end && decades[i].end.end == decades[i + 1].start)
  }

  /** The number of points over a list of groups. */
  function SrcTotal(groups: seq<SrcGroup>): nat
  {
    if groups == [] then 0 else |groups[0].points| + SrcTotal(groups[1..])
  }

  /** Groups as large as the number of filtered points in each of a list of
      chained decade groups hold, together, every point from the first start on. */
  lemma {:induction false} TotalOverDecades(filtered: seq<SrcPoint>, decades: seq<Decade>, groups: seq<SrcGroup>)
    requires Chained(decades) && |groups| == |decades|
    requires forall i :: 0 <= i < |groups| ==> |groups[i].points| == Count(filtered, InDecade(decades[i]))
    ensures SrcTotal(groups) == Count(filtered, AtLeast(FilterKey, decades[0].start as real))
    decreases |decades|
  {
    var d, rest := decades[0], decades[1..];
    if |decades| == 1 {
      assert groups[1..] == [];
    } else {
      assert Chained(rest);
      forall i | 0 <= i < |rest| ensures |groups[1..][i].points| == Count(filtered, InDecade(rest[i])) {
        assert groups[1..][i] == groups[i + 1] && rest[i] == decades[i + 1];
      }
      TotalOverDecades(filtered, rest, groups[1..]);
      CountAtLeastSplit(filtered, FilterKey, d.start as real, d.end.end as real);
    }
  }

  /** Over chained decade groups every filtered point from the first start on
      lands in exactly one group: the group sizes add up to their number. */
  lemma DecadeGroupsPartition(filtered: seq<SrcPoint>, decades: seq<Decade>)
    requires Chained(decades)
    ensures SrcTotal(DecadeGroups(filtered, decades)) == Count(filtered, AtLeast(FilterKey, decades[0].start as real))
  {
    var groups := DecadeGroups(filtered, decades);
    forall i | 0 <= i < |groups| ensures |groups[i].points| == Count(filtered, InDecade(decades[i])) {
      assert groups[i] == DecadeGroup(filtered, decades[i]);
    }
    TotalOverDecades(filtered, decades, groups);
  }

  /** The src caption of a bounded decade names its end, where the client's
      legend names the last year inside (`end - 1`): the two never agree. */
  lemma CaptionDiffersFromClient(d: Decade)
    requires d.end.Bounded?
    ensures DecadeCaption(d) != IntToString(d.start) + "-" + IntToString(d.end.end - 1)
  {
    PrefixedIntInjective(IntToString(d.start) + "-", d.end.end, d.end.end - 1);
    assert DecadeCaption(d) == (IntToString(d.start) + "-") + IntToString(d.end.end);
    assert IntToString(d.start) + "-" + IntToString(d.end.end - 1) == (IntToString(d.start) + "-") + IntToString(d.end.end - 1);
  }
}
