/** The data pipeline of client/src/App.tsx: the year-range filter, the
    per-cluster counter, the two ways of grouping points into coloured
    scatter plots, the slider histogram, and the view state whose hover is
    cleared when the plot or the colour mode changes. */
module ClientApp {
  import opened Seqs
  import opened Numbers
  import opened Records
  import opened Histograms
  import opened DataUtils

  // ---------------------------------------------------------------------------
  // Range filter
  // ---------------------------------------------------------------------------

  /** The records whose year lies in the closed range, in their original order. */
  function FilteredPoints(data: seq<DataItem>, lo: real, hi: real): (r: seq<DataItem>)
    ensures forall d :: d in r <==> d in data && lo <= d.year as real <= hi
    ensures IsSubsequence(r, data)
    ensures forall d :: multiset(r)[d] == if lo <= d.year as real <= hi then multiset(data)[d] else 0
  {
    FilterMultiset(data, Closed(YearKey, lo, hi));
    FilterIsSubsequence(data, Closed(YearKey, lo, hi));
    Filter(data, Closed(YearKey, lo, hi))
  }

  /** After a load the range is `[getMinVal(data), getMaxVal(data)]`, and with it
      the filter keeps every point, in order. */
  lemma FullRangeKeepsAll(data: seq<DataItem>)
    requires |data| > 0
    ensures GetMinVal(data).Some? && GetMaxVal(data).Some?
    ensures FilteredPoints(data, GetMinVal(data).value as real, GetMaxVal(data).value as real) == data
  {
    var lo, hi := GetMinVal(data).value as real, GetMaxVal(data).value as real;
    FilterAll(data, Closed(YearKey, lo, hi));
  }

  // ---------------------------------------------------------------------------
  // Cluster counter
  // ---------------------------------------------------------------------------

  /** `d => d.CLUSTER === c`. */
  function HasCluster(c: int): DataItem -> bool
  {
    (d: DataItem) => d.cluster == c
  }

  /** The number of points of cluster `c`. */
  function ClusterCount(points: seq<DataItem>, c: int): nat
  {
    Count(points, HasCluster(c))
  }

  lemma ClusterCountSnoc(points: seq<DataItem>, d: DataItem, c: int)
    ensures ClusterCount(points + [d], c) == ClusterCount(points, c) + (if d.cluster == c then 1 else 0)
  {
    CountAppend(points, [d], HasCluster(c));
  }

  /** `counts` holds, for every cluster that occurs in `points`, its number of
      points, and no other key. */
  ghost predicate Tallies(counts: map<int, nat>, points: seq<DataItem>)
  {
    forall c :: (c in counts <==> ClusterCount(points, c) > 0)
             && (c in counts ==> counts[c] == ClusterCount(points, c))
  }

  /** `counts[c] = (counts[c] || 0) + 1`: one more point of cluster `c`. */
  function Tally(counts: map<int, nat>, c: int): (r: map<int, nat>)
    ensures c in r && r[c] == (if c in counts then counts[c] else 0) + 1
    ensures forall c' :: c' != c ==> (c' in r <==> c' in counts) && (c' in counts ==> r[c'] == counts[c'])
  {
    counts[c := (if c in counts then counts[c] else 0) + 1]
  }

  /** Counting point `i` turns the tallies of the first `i` points into those
      of the first `i + 1`. */
  lemma TalliesStep(counts: map<int, nat>, points: seq<DataItem>, i: nat)
    requires i < |points| && Tallies(counts, points[..i])
    ensures Tallies(Tally(counts, points[i].cluster), points[..i + 1])
  {
    assert points[..i + 1] == points[..i] + [points[i]];
    forall c {
      ClusterCountSnoc(points[..i], points[i], c);
    }
  }

  /** `clusterCounts`: a dictionary filled point by point with
      `counts[CLUSTER] = (counts[CLUSTER] || 0) + 1`. A cluster is a key exactly
      when it occurs, and its value is the number of its points. */
  method CountClusters(points: seq<DataItem>) returns (counts: map<int, nat>)
    ensures forall c :: c in counts <==> ClusterCount(points, c) > 0
    ensures forall c :: c in counts ==> counts[c] == ClusterCount(points, c)
  {
    counts := map[];
    for i := 0 to |points|
      invariant Tallies(counts, points[..i])
    {
      TalliesStep(counts, points, i);
      counts := Tally(counts, points[i].cluster);
    }
    assert points[..|points|] == points;
  }

  // ---------------------------------------------------------------------------
  // Distinct clusters, ascending
  // ---------------------------------------------------------------------------

  predicate StrictlyAscending(s: seq<int>)
  {
    forall i, j :: 0 <= i < j < |s| ==> s[i] < s[j]
  }

  /** Inserts `x` into an ascending list of distinct ids, unless it is already there. */
  function InsertSorted(s: seq<int>, x: int): (r: seq<int>)
    requires StrictlyAscending(s)
    ensures StrictlyAscending(r)
    ensures forall y :: y in r <==> y in s || y == x
    decreases |s|
  {
    if s == [] then [x]
    else if x < s[0] then [x] + s
    else if x == s[0] then s
    else
      var rest := InsertSorted(s[1..], x);
      assert forall y :: y in s[1..] ==> s[0] < y;
      assert forall k :: 0 <= k < |rest| ==> rest[k] in rest;
      [s[0]] + rest
  }

  /** Some point belongs to cluster `c`. */
  predicate Occurs(points: seq<DataItem>, c: int)
  {
    exists d :: d in points && d.cluster == c
  }

  /** The cluster ids, deduplicated through a set and sorted numerically:
      every cluster that occurs, once, in ascending order. */
  function DistinctClusters(points: seq<DataItem>): (cs: seq<int>)
    ensures StrictlyAscending(cs)
    ensures forall c :: c in cs <==> Occurs(points, c)
    decreases |points|
  {
    if points == [] then []
    else
      var rest := DistinctClusters(points[1..]);
      assert points == [points[0]] + points[1..];
      assert forall d :: d in points <==> d == points[0] || d in points[1..];
      InsertSorted(rest, points[0].cluster)
  }

  /** The head of an ascending list is its least element. */
  lemma AscendingHeadIsLeast(s: seq<int>, x: int)
    requires StrictlyAscending(s) && x in s
    ensures s[0] <= x
  {
    var k :| 0 <= k < |s| && s[k] == x;
    assert k == 0 || s[0] < s[k];
  }

  /** A set, sorted, has one ascending enumeration: any two ascending lists of
      distinct ids with the same members are equal, so inserting one by one
      gives what `Set` followed by `sort` gives. */
  lemma {:induction false} AscendingUnique(a: seq<int>, b: seq<int>)
    requires StrictlyAscending(a) && StrictlyAscending(b)
    requires forall x :: x in a <==> x in b
    ensures a == b
    decreases |a|
  {
    assert a != [] ==> a[0] in a && a[0] in b;
    assert b != [] ==> b[0] in b && b[0] in a;
    if a != [] && b != [] {
      AscendingHeadIsLeast(b, a[0]);
      AscendingHeadIsLeast(a, b[0]);
      AscendingTail(a);
      AscendingTail(b);
      AscendingUnique(a[1..], b[1..]);
      assert a == [a[0]] + a[1..] && b == [b[0]] + b[1..];
    }
  }

  /** Past the head of an ascending list come its other members, each once. */
  lemma AscendingTail(s: seq<int>)
    requires StrictlyAscending(s) && s != []
    ensures StrictlyAscending(s[1..])
    ensures forall x :: x in s[1..] <==> x in s && x != s[0]
  {
    assert s == [s[0]] + s[1..];
    forall x | x in s[1..] ensures x != s[0] {
      var k :| 0 <= k < |s[1..]| && s[1..][k] == x;
      assert s[k + 1] == x;
    }
  }

  // ---------------------------------------------------------------------------
  // Grouping by cluster
  // ---------------------------------------------------------------------------

  /** `clusterColors`: the twenty-colour palette. */
  const ClusterColors: seq<string> := [
    "#BC13FE", "#FF00FF", "#04D9FF", "#39FF14", "#FFFF33",
    "#FF8C00", "#FF073A", "#00FFFF", "#FF1493", "#32CD32",
    "#FFD700", "#FF4500", "#9370DB", "#20B2AA", "#FF69B4",
    "#00CED1", "#FF6347", "#8A2BE2", "#00FF7F", "#FFB6C1"
  ]

  /** The group of one cluster: its points, the palette colour of its
      position and the caption `Cluster N`. */
  function ClusterGroup(filtered: seq<DataItem>, cluster: int, index: nat): (g: Group)
    ensures |g.points| == ClusterCount(filtered, cluster)
    ensures forall k :: 0 <= k < |g.points| ==> g.points[k].cluster == IntToString(cluster)
  {
    Group(ToPoints(Filter(filtered, HasCluster(cluster))),
          ClusterColors[index % |ClusterColors|],
          "Cluster " + IntToString(cluster))
  }

  /** `pointGroups` in cluster mode. */
  function ClusterGroups(filtered: seq<DataItem>): (groups: seq<Group>)
    ensures |groups| == |DistinctClusters(filtered)|
  {
    var cs := DistinctClusters(filtered);
    seq(|cs|, i requires 0 <= i < |cs| => ClusterGroup(filtered, cs[i], i))
  }

  /** In cluster mode group `i` is cluster `cs[i]`'s: coloured by its
      position modulo 20, captioned `Cluster N`, never empty, as large as the
      cluster's count and holding only points of that cluster: the points of
      the cluster's records, in their order and with their repeats. */
  lemma ClusterGroupAt(filtered: seq<DataItem>, i: nat)
    requires i < |ClusterGroups(filtered)|
    ensures var c, g := DistinctClusters(filtered)[i], ClusterGroups(filtered)[i];
      && g.color == ClusterColors[i % 20]
      && g.caption == "Cluster " + IntToString(c)
      && |g.points| == ClusterCount(filtered, c) > 0
      && (forall p :: p in g.points ==> p.cluster == IntToString(c))
      && exists s :: Selects(s, filtered, HasCluster(c)) && g.points == ToPoints(s)
  {
    var cs := DistinctClusters(filtered);
    var c := cs[i];
    var members := Filter(filtered, HasCluster(c));
    var g := ClusterGroups(filtered)[i];
    assert g == ClusterGroup(filtered, c, i);
    assert g.points == ToPoints(members);
    FilterSelects(filtered, HasCluster(c));
    assert c in cs;
    var d :| d in filtered && d.cluster == c;
    assert HasCluster(c)(d);
    assert d in members;
    forall q | q in g.points ensures q.cluster == IntToString(c) {
      ToPointsOrigin(members, q);
    }
  }

  /** In cluster mode: one group per distinct cluster, in ascending cluster
      order, each as `ClusterGroupAt` describes, and no two captions equal. */
  lemma ClusterGroupsShape(filtered: seq<DataItem>)
    ensures var cs := DistinctClusters(filtered); var groups := ClusterGroups(filtered);
      && StrictlyAscending(cs)
      && |groups| == |cs|
      && (forall i :: 0 <= i < |groups| ==>
            && groups[i].color == ClusterColors[i % 20]
            && groups[i].caption == "Cluster " + IntToString(cs[i])
            && |groups[i].points| == ClusterCount(filtered, cs[i]) > 0
            && (forall p :: p in groups[i].points ==> p.cluster == IntToString(cs[i]))
            && exists s :: Selects(s, filtered, HasCluster(cs[i])) && groups[i].points == ToPoints(s))
      && (forall i, j :: 0 <= i < j < |groups| ==> groups[i].caption != groups[j].caption)
  {
    var cs := DistinctClusters(filtered);
    var groups := ClusterGroups(filtered);
    forall i | 0 <= i < |groups|
      ensures groups[i].color == ClusterColors[i % 20]
      ensures groups[i].caption == "Cluster " + IntToString(cs[i])
      ensures |groups[i].points| == ClusterCount(filtered, cs[i]) > 0
      ensures forall p :: p in groups[i].points ==> p.cluster == IntToString(cs[i])
      ensures exists s :: Selects(s, filtered, HasCluster(cs[i])) && groups[i].points == ToPoints(s)
    {
      ClusterGroupAt(filtered, i);
    }
    forall i, j | 0 <= i < j < |groups| ensures groups[i].caption != groups[j].caption {
      assert cs[i] < cs[j];
      PrefixedIntInjective("Cluster ", cs[i], cs[j]);
    }
  }

  /** Sum of the cluster counts over a list of ids. */
  function SumClusterCounts(points: seq<DataItem>, cs: seq<int>): nat
  {
    if cs == [] then 0 else ClusterCount(points, cs[0]) + SumClusterCounts(points, cs[1..])
  }

  lemma {:induction false} SumClusterCountsCons(d: DataItem, rest: seq<DataItem>, cs: seq<int>)
    ensures SumClusterCounts([d] + rest, cs) == multiset(cs)[d.cluster] + SumClusterCounts(rest, cs)
    decreases |cs|
  {
    if cs != [] {
      var c, more := cs[0], cs[1..];
      var own := if d.cluster == c then 1 else 0;
      CountAppend([d], rest, HasCluster(c));
      assert Count([d], HasCluster(c)) == own by {
        assert Filter([d], HasCluster(c)) == (if d.cluster == c then [d] else []);
      }
      assert ClusterCount([d] + rest, c) == own + ClusterCount(rest, c);
      SumClusterCountsCons(d, rest, more);
      assert multiset(cs)[d.cluster] == own + multiset(more)[d.cluster] by {
        assert cs == [c] + more;
      }
    }
  }

  lemma {:induction false} AscendingOccursOnce(cs: seq<int>, x: int)
    requires StrictlyAscending(cs) && x in cs
    ensures multiset(cs)[x] == 1
    decreases |cs|
  {
    assert cs == [cs[0]] + cs[1..];
    if cs[0] == x {
      assert forall k :: 0 <= k < |cs| - 1 ==> cs[1..][k] == cs[k + 1] && cs[0] < cs[k + 1];
      assert x !in cs[1..];
    } else {
      assert x in cs[1..];
      AscendingOccursOnce(cs[1..], x);
    }
  }

  /** Counting each id of a list of distinct ids that covers every point
      counts every point exactly once. */
  lemma {:induction false} SumClusterCountsCovers(points: seq<DataItem>, cs: seq<int>)
    requires StrictlyAscending(cs)
    requires forall k :: 0 <= k < |points| ==> points[k].cluster in cs
    ensures SumClusterCounts(points, cs) == |points|
    decreases |points|, |cs|
  {
    if points == [] {
      if cs != [] {
        SumClusterCountsCovers(points, cs[1..]);
      }
    } else {
      assert points == [points[0]] + points[1..];
      SumClusterCountsCons(points[0], points[1..], cs);
      AscendingOccursOnce(cs, points[0].cluster);
      SumClusterCountsCovers(points[1..], cs);
    }
  }

  lemma {:induction false} TotalOfCounted(groups: seq<Group>, points: seq<DataItem>, cs: seq<int>)
    requires |groups| == |cs|
    requires forall i :: 0 <= i < |groups| ==> |groups[i].points| == ClusterCount(points, cs[i])
    ensures TotalPoints(groups) == SumClusterCounts(points, cs)
    decreases |groups|
  {
    if groups != [] {
      TotalOfCounted(groups[1..], points, cs[1..]);
    }
  }

  /** `clusterCounts` summed over the clusters present is the number of
      filtered points, and so is the number of points over all cluster
      groups: no point is lost or duplicated. */
  lemma ClusterGroupsPartition(filtered: seq<DataItem>)
    ensures SumClusterCounts(filtered, DistinctClusters(filtered)) == |filtered|
    ensures TotalPoints(ClusterGroups(filtered)) == |filtered|
  {
    var cs := DistinctClusters(filtered);
    var groups := ClusterGroups(filtered);
    forall k | 0 <= k < |filtered| ensures filtered[k].cluster in cs {
      assert filtered[k] in filtered;
    }
    SumClusterCountsCovers(filtered, cs);
    forall i | 0 <= i < |groups| ensures |groups[i].points| == ClusterCount(filtered, cs[i]) {
      assert groups[i] == ClusterGroup(filtered, cs[i], i);
    }
    TotalOfCounted(groups, filtered, cs);
  }

  /** A filtered point lands in the group of its own cluster and in no other. */
  lemma ClusterGroupsMembership(filtered: seq<DataItem>, d: DataItem, i: nat)
    requires d in filtered && i < |ClusterGroups(filtered)|
    ensures ToPoint(d) in ClusterGroups(filtered)[i].points <==> d.cluster == DistinctClusters(filtered)[i]
  {
    var cs := DistinctClusters(filtered);
    var members := Filter(filtered, HasCluster(cs[i]));
    assert ClusterGroups(filtered)[i].points == ToPoints(members);
    if d.cluster == cs[i] {
      assert d in members;
      ToPointsMember(members, d);
    }
    if ToPoint(d) in ToPoints(members) {
      ToPointsOrigin(members, ToPoint(d));
      var e :| e in members && ToPoint(e) == ToPoint(d);
      IntToStringInjective(e.cluster, d.cluster);
    }
  }

  // ---------------------------------------------------------------------------
  // Grouping by year band
  // ---------------------------------------------------------------------------

  /** A half-open band `[start, end)` of years with its legend colour. */
  datatype Band = Band(start: int, end: int, color: string)

  /** `yearGroups`: seven five-year bands from 1990 to 2025. */
  const YearBands: seq<Band> := [
    Band(1990, 1995, "#BC13FE"),
    Band(1995, 2000, "#FF00FF"),
    Band(2000, 2005, "#04D9FF"),
    Band(2005, 2010, "#39FF14"),
    Band(2010, 2015, "#FFFF33"),
    Band(2015, 2020, "#FF8C00"),
    Band(2020, 2025, "#FF073A")
  ]

  /** `d => d.YEAR >= start && d.YEAR < end`. */
  function InBand(b: Band): DataItem -> bool
  {
    HalfOpen(YearKey, b.start as real, b.end as real)
  }

  /** The group of one band, captioned `{start}-{end - 1}`. */
  function BandGroup(filtered: seq<DataItem>, b: Band): (g: Group)
    ensures |g.points| == Count(filtered, InBand(b))
  {
    Group(ToPoints(Filter(filtered, InBand(b))), b.color, IntToString(b.start) + "-" + IntToString(b.end - 1))
  }

  /** `bands.map(...)`: one group per band, in band order, empty ones kept. */
  function BandGroups(filtered: seq<DataItem>, bands: seq<Band>): (groups: seq<Group>)
    ensures |groups| == |bands|
  {
    seq(|bands|, i requires 0 <= i < |bands| => BandGroup(filtered, bands[i]))
  }

  /** `pointGroups` in year mode. */
  function YearGroups(filtered: seq<DataItem>): (groups: seq<Group>)
    ensures |groups| == 7
  {
    BandGroups(filtered, YearBands)
  }

  /** Each band ends where the next starts. */
  predicate Contiguous(bands: seq<Band>)
  {
    && (forall i :: 0 <= i < |bands| ==> bands[i].start <= bands[i].end)
    && (forall i :: 0 <= i < |bands| - 1 ==> bands[i].end == bands[i + 1].start)
  }

  /** Groups as large as the number of filtered points in each of a list of
      contiguous bands hold, together, the points from the first start to the
      last end. */
  lemma {:induction false} TotalOverBands(filtered: seq<DataItem>, bands: seq<Band>, groups: seq<Group>)
    requires |bands| > 0 && Contiguous(bands) && |groups| == |bands|
    requires forall i :: 0 <= i < |groups| ==> |groups[i].points| == Count(filtered, InBand(bands[i]))
    ensures TotalPoints(groups) ==
            Count(filtered, HalfOpen(YearKey, bands[0].start as real, bands[|bands| - 1].end as real))
    decreases |bands|
  {
    var b, last, rest := bands[0], bands[|bands| - 1], bands[1..];
    if |bands| == 1 {
      assert groups[1..] == [];
    } else {
      assert Contiguous(rest);
      forall i | 0 <= i < |rest| ensures |groups[1..][i].points| == Count(filtered, InBand(rest[i])) {
        assert groups[1..][i] == groups[i + 1] && rest[i] == bands[i + 1];
      }
      TotalOverBands(filtered, rest, groups[1..]);
      assert b.end == rest[0].start && rest[|rest| - 1] == last;
      ContiguousEdges(rest);
      CountHalfOpenSplit(filtered, YearKey, b.start as real, b.end as real, last.end as real);
    }
  }

  /** Over contiguous bands the groups hold, together, exactly the points
      whose year lies between the first start and the last end. */
  lemma BandGroupsTotal(filtered: seq<DataItem>, bands: seq<Band>)
    requires |bands| > 0 && Contiguous(bands)
    ensures TotalPoints(BandGroups(filtered, bands)) ==
            Count(filtered, HalfOpen(YearKey, bands[0].start as real, bands[|bands| - 1].end as real))
  {
    var groups := BandGroups(filtered, bands);
    forall i | 0 <= i < |groups| ensures |groups[i].points| == Count(filtered, InBand(bands[i])) {
      assert groups[i] == BandGroup(filtered, bands[i]);
    }
    TotalOverBands(filtered, bands, groups);
  }

  lemma {:induction false} ContiguousEdges(bands: seq<Band>)
    requires |bands| > 0 && Contiguous(bands)
    ensures bands[0].start <= bands[|bands| - 1].end
    decreases |bands|
  {
    if |bands| > 1 {
      ContiguousEdges(bands[1..]);
    }
  }

  /** In year mode group `i` is band `i`: its colour, captioned
      `{start}-{end - 1}`, and holding exactly the filtered points with
      `start <= YEAR < end`, one point per such item, in their order. */
  lemma YearGroupAt(filtered: seq<DataItem>, i: nat)
    requires i < 7
    ensures var g := YearGroups(filtered)[i];
      && g.color == YearBands[i].color
      && g.caption == IntToString(YearBands[i].start) + "-" + IntToString(YearBands[i].end - 1)
      && |g.points| == Count(filtered, InBand(YearBands[i]))
      && (forall d :: d in filtered && YearBands[i].start <= d.year < YearBands[i].end ==> ToPoint(d) in g.points)
      && (forall q :: q in g.points ==>
            exists d :: d in filtered && YearBands[i].start <= d.year < YearBands[i].end && ToPoint(d) == q)
      && exists s :: Selects(s, filtered, InBand(YearBands[i])) && g.points == ToPoints(s)
  {
    var members := Filter(filtered, InBand(YearBands[i]));
    var g := YearGroups(filtered)[i];
    assert g.points == ToPoints(members);
    FilterSelects(filtered, InBand(YearBands[i]));
    forall d | d in filtered && YearBands[i].start <= d.year < YearBands[i].end
      ensures ToPoint(d) in g.points
    {
      ToPointsMember(members, d);
    }
    forall q | q in g.points
      ensures exists d :: d in filtered && YearBands[i].start <= d.year < YearBands[i].end && ToPoint(d) == q
    {
      ToPointsOrigin(members, q);
    }
  }

  /** In year mode the seven groups together hold exactly the filtered points
      whose year lies in `[1990, 2025)`; points outside are in no group. */
  lemma YearGroupsTotal(filtered: seq<DataItem>)
    ensures TotalPoints(YearGroups(filtered)) == Count(filtered, HalfOpen(YearKey, 1990.0, 2025.0))
  {
    assert Contiguous(YearBands);
    BandGroupsTotal(filtered, YearBands);
  }

  // ---------------------------------------------------------------------------
  // Histogram
  // ---------------------------------------------------------------------------

  /** `histogramData`: empty for no data, otherwise `ceil(max - min)` one-year
      bins from `floor(min)`. */
  function Histogram(data: seq<DataItem>, minVal: real, maxVal: real): (bins: seq<Bin>)
    ensures |data| == 0 ==> bins == []
    ensures |data| > 0 ==> |bins| == BinCount(minVal, maxVal)
  {
    if |data| == 0 then [] else HistogramOf(data, YearKey, minVal, maxVal)
  }

  /** Bin `i` is the year `floor(min) + i` and counts the points of that year. */
  lemma HistogramBins(data: seq<DataItem>, minVal: real, maxVal: real, i: nat)
    requires |data| > 0 && i < BinCount(minVal, maxVal)
    ensures Histogram(data, minVal, maxVal)[i].arg == Floor(minVal) + i
    ensures Histogram(data, minVal, maxVal)[i].val ==
            Count(data, HalfOpen(YearKey, (Floor(minVal) + i) as real, (Floor(minVal) + i + 1) as real))
  {
    BinsAt(data, YearKey, Floor(minVal), BinCount(minVal, maxVal), i);
  }

  /** `d => d.YEAR === y`. */
  function YearIs(y: int): DataItem -> bool
  {
    (d: DataItem) => d.year == y
  }

  /** With every year in `[lo, hi]`, the bins of `[lo, hi]` count all points
      but those of year `hi`. */
  lemma HistogramBelow(data: seq<DataItem>, lo: int, hi: int)
    requires |data| > 0 && lo <= hi
    requires forall k :: 0 <= k < |data| ==> lo <= data[k].year <= hi
    ensures BinTotal(Histogram(data, lo as real, hi as real)) + Count(data, YearIs(hi)) == |data|
  {
    IntegerHistogramTotal(data, lo, hi);
    CountHalfOpenSplit(data, YearKey, lo as real, hi as real, (hi + 1) as real);
    YearsInRange(data, lo, hi);
    YearSliceIsYear(data, hi);
  }

  /** On whole-year bounds the histogram is `hi - lo` bins from `lo`, counting
      the points in `[lo, hi)`. */
  lemma IntegerHistogramTotal(data: seq<DataItem>, lo: int, hi: int)
    requires |data| > 0 && lo <= hi
    ensures BinTotal(Histogram(data, lo as real, hi as real)) == Count(data, HalfOpen(YearKey, lo as real, hi as real))
  {
    assert Floor(lo as real) == lo;
    assert BinCount(lo as real, hi as real) == hi - lo;
    assert Histogram(data, lo as real, hi as real) == Bins(data, YearKey, lo, hi - lo);
    BinsTotal(data, YearKey, lo, hi - lo);
  }

  /** With every year in `[lo, hi]`, `[lo, hi + 1)` holds every point. */
  lemma YearsInRange(data: seq<DataItem>, lo: int, hi: int)
    requires forall k :: 0 <= k < |data| ==> lo <= data[k].year <= hi
    ensures Count(data, HalfOpen(YearKey, lo as real, (hi + 1) as real)) == |data|
  {
    var all := HalfOpen(YearKey, lo as real, (hi + 1) as real);
    assert forall k :: 0 <= k < |data| ==> all(data[k]);
    FilterAll(data, all);
  }

  /** For whole years, `[hi, hi + 1)` holds exactly the points of year `hi`. */
  lemma YearSliceIsYear(data: seq<DataItem>, hi: int)
    ensures Count(data, HalfOpen(YearKey, hi as real, (hi + 1) as real)) == Count(data, YearIs(hi))
  {
    var top := HalfOpen(YearKey, hi as real, (hi + 1) as real);
    assert forall k :: 0 <= k < |data| ==> top(data[k]) == YearIs(hi)(data[k]);
    FilterCongruent(data, top, YearIs(hi));
  }

  /** Over the loaded range the bins count the points below the largest year
      and miss every point of the largest year, of which there is at least one:
      the histogram never accounts for all the points. */
  lemma HistogramMissesMaxYear(data: seq<DataItem>)
    requires |data| > 0
    ensures GetMinVal(data).Some? && GetMaxVal(data).Some?
    ensures var lo, hi := GetMinVal(data).value, GetMaxVal(data).value;
      && BinTotal(Histogram(data, lo as real, hi as real)) + Count(data, YearIs(hi)) == |data|
      && Count(data, YearIs(hi)) >= 1
  {
    var lo, hi := GetMinVal(data).value, GetMaxVal(data).value;
    MinAtMostMax(data);
    HistogramBelow(data, lo, hi);
    var k :| 0 <= k < |data| && data[k].year == hi;
    assert YearIs(hi)(data[k]);
    assert data[k] in Filter(data, YearIs(hi));
    assert |Filter(data, YearIs(hi))| >= 1;
  }

  /** One point: the loaded range is `[2000, 2000]`, no bin at all. */
  lemma SinglePointHistogramIsEmpty()
    ensures Histogram([DataItem(2000, 1, 0.0, 0.0)], 2000.0, 2000.0) == []
  {
  }

  /** Corrected histogram: one bin for every year from `floor(min)` to
      `floor(max)` inclusive. */
  function HistogramAllYears(data: seq<DataItem>, minVal: real, maxVal: real): (bins: seq<Bin>)
    ensures |data| == 0 ==> bins == []
    ensures |data| > 0 && Floor(minVal) <= Floor(maxVal) ==> |bins| == Floor(maxVal) - Floor(minVal) + 1
  {
    if |data| == 0 then []
    else
      var n := Floor(maxVal) - Floor(minVal) + 1;
      Bins(data, YearKey, Floor(minVal), if n < 0 then 0 else n)
  }

  /** With every year in `[lo, hi]`, the corrected bins count every point. */
  lemma HistogramAllYearsCovers(data: seq<DataItem>, lo: int, hi: int)
    requires |data| > 0 && lo <= hi
    requires forall k :: 0 <= k < |data| ==> lo <= data[k].year <= hi
    ensures BinTotal(HistogramAllYears(data, lo as real, hi as real)) == |data|
  {
    assert Floor(lo as real) == lo && Floor(hi as real) == hi;
    BinsTotal(data, YearKey, lo, hi - lo + 1);
    FilterAll(data, HalfOpen(YearKey, lo as real, (hi + 1) as real));
  }

  /** Over the loaded range the corrected bins account for every point. */
  lemma HistogramAllYearsTotal(data: seq<DataItem>)
    requires |data| > 0
    ensures GetMinVal(data).Some? && GetMaxVal(data).Some?
    ensures BinTotal(HistogramAllYears(data, GetMinVal(data).value as real, GetMaxVal(data).value as real)) == |data|
  {
    MinAtMostMax(data);
    HistogramAllYearsCovers(data, GetMinVal(data).value, GetMaxVal(data).value);
  }

  // ---------------------------------------------------------------------------
  // View state and hover
  // ---------------------------------------------------------------------------

  datatype ColorMode = Years | Clusters

  /** The React state of `App` that the hover depends on: the selected plot,
      the colour mode and the hovered cluster (`String(CLUSTER)` or
      `undefined`). Changing the plot or the mode clears the hover. */
  class ViewState {
    var activePlot: string
    var colorMode: ColorMode
    var hoveredCluster: Option<string>

    /** The hover is empty or the string of some cluster id: the only values
        the handlers ever store. */
    ghost predicate Valid()
      reads this
    {
      hoveredCluster.None? || exists c :: hoveredCluster.value == IntToString(c)
    }

    constructor()
      ensures Valid()
      ensures activePlot == "Breast Cancer" && colorMode == Clusters && hoveredCluster == None
    {
      activePlot := "Breast Cancer";
      colorMode := Clusters;
      hoveredCluster := None;
    }

    /** `setActivePlot`; the effect on `[activePlot]` clears the hover when the plot changed. */
    method SetActivePlot(plot: string)
      requires Valid()
      modifies this
      ensures Valid()
      ensures activePlot == plot && colorMode == old(colorMode)
      ensures hoveredCluster == if plot != old(activePlot) then None else old(hoveredCluster)
    {
      if plot != activePlot {
        hoveredCluster := None;
      }
      activePlot := plot;
    }

    /** `setColorMode`; the effect on `[colorMode]` clears the hover when the mode changed. */
    method SetColorMode(mode: ColorMode)
      requires Valid()
      modifies this
      ensures Valid()
      ensures colorMode == mode && activePlot == old(activePlot)
      ensures hoveredCluster == if mode != old(colorMode) then None else old(hoveredCluster)
    {
      if mode != colorMode {
        hoveredCluster := None;
      }
      colorMode := mode;
    }

    /** The mouse enters a rank row or a label of cluster `cluster`. */
    method HoverEnter(cluster: int)
      requires Valid()
      modifies this`hoveredCluster
      ensures Valid()
      ensures hoveredCluster == Some(IntToString(cluster))
    {
      hoveredCluster := Some(IntToString(cluster));
    }

    /** The mouse leaves a rank row or a label. */
    method HoverLeave()
      requires Valid()
      modifies this`hoveredCluster
      ensures Valid()
      ensures hoveredCluster == None
    {
      hoveredCluster := None;
    }
  }
}
