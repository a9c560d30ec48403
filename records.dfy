/** The records the client loads and derives: points, labels and ranks as the
    API delivers them, and the per-group points handed to a scatter plot. */
module Records {
  import opened Numbers

  /** A loaded point: `{YEAR, CLUSTER, X, Y}`. */
  datatype DataItem = DataItem(year: int, cluster: int, x: real, y: real)

  /** An on-canvas label: `{CLUSTER, LABEL, X, Y}`. */
  datatype LabelItem = LabelItem(cluster: int, text: string, x: real, y: real)

  /** A row of the ranked side list: `{CLUSTER, LABEL, RANK}`. */
  datatype RankItem = RankItem(cluster: int, text: string, rank: int)

  /** A point as a scatter plot receives it, its cluster id already stringified. */
  datatype Point = Point(x: real, y: real, cluster: string)

  /** One coloured, labelled group of points. */
  datatype Group = Group(points: seq<Point>, color: string, caption: string)

  /** The year of a point, as the key that ranges and bins compare. */
  const YearKey: DataItem -> real := (d: DataItem) => d.year as real

  /** `({X, Y, CLUSTER}) => ({X, Y, CLUSTER: String(CLUSTER)})`. */
  function ToPoint(d: DataItem): (p: Point)
    ensures p.x == d.x && p.y == d.y
    ensures p.cluster == IntToString(d.cluster)
  {
    Point(d.x, d.y, IntToString(d.cluster))
  }

  /** `.map(ToPoint)`. */
  function ToPoints(s: seq<DataItem>): (r: seq<Point>)
    ensures |r| == |s|
    ensures forall k :: 0 <= k < |s| ==> r[k] == ToPoint(s[k])
  {
    seq(|s|, k requires 0 <= k < |s| => ToPoint(s[k]))
  }

  lemma ToPointsMember(s: seq<DataItem>, d: DataItem)
    requires d in s
    ensures ToPoint(d) in ToPoints(s)
  {
    var k :| 0 <= k < |s| && s[k] == d;
    assert ToPoints(s)[k] == ToPoint(d);
  }

  lemma ToPointsOrigin(s: seq<DataItem>, q: Point)
    requires q in ToPoints(s)
    ensures exists d :: d in s && ToPoint(d) == q
  {
    var k :| 0 <= k < |ToPoints(s)| && ToPoints(s)[k] == q;
    assert s[k] in s;
  }

  /** The total number of points over a list of groups. */
  function TotalPoints(groups: seq<Group>): nat
  {
    if groups == [] then 0 else |groups[0].points| + TotalPoints(groups[1..])
  }
}
