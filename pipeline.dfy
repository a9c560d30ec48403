/** How the pieces of the client fit together: hovering a cluster (in the
    rank list or on a label) makes exactly the scatter plot of that cluster
    pulse in cluster mode. */
module Pipeline {
  import opened Seqs
  import opened Numbers
  import opened Records
  import opened ClientApp
  import opened ScatterPlot

  /** In cluster mode, while cluster `c` is hovered, every point of group `i`
      pulses when the group is `c`'s, and every point keeps the base size
      otherwise. */
  lemma HoverPulsesOwnGroup(filtered: seq<DataItem>, c: int, i: nat, pointSize: real, sines: seq<real>)
    requires i < |ClusterGroups(filtered)|
    requires |sines| == |ClusterGroups(filtered)[i].points|
    ensures var points := ClusterGroups(filtered)[i].points;
            var sizes := TargetSizes(points, pointSize, Some(IntToString(c)), sines);
      && (DistinctClusters(filtered)[i] == c ==>
            forall k :: 0 <= k < |sizes| ==> sizes[k] == pointSize * 1.5 * (1.0 + 0.5 * sines[k]))
      && (DistinctClusters(filtered)[i] != c ==>
            forall k :: 0 <= k < |sizes| ==> sizes[k] == pointSize)
  {
    var cs := DistinctClusters(filtered);
    var points := ClusterGroups(filtered)[i].points;
    var h := Some(IntToString(c));
    var sizes := TargetSizes(points, pointSize, h, sines);
    assert ClusterGroups(filtered)[i] == ClusterGroup(filtered, cs[i], i);
    IntToStringInjective(cs[i], c);
    assert h.value != "";
    forall k | 0 <= k < |sizes|
      ensures sizes[k] == TargetSize(points[k], pointSize, h, sines[k])
      ensures points[k].cluster == IntToString(cs[i])
    {
      assert points[k] in points;
    }
  }

  /** A hover the handlers stored is never the empty string, so the
      truthiness test in the frame loop (`highlightedCluster && ...`) is just
      the comparison of the point's cluster with the hover. */
  lemma ValidHoverIsTruthy(v: ViewState, p: Point, pointSize: real, sine: real)
    requires v.Valid()
    ensures v.hoveredCluster.None? || v.hoveredCluster.value != ""
    ensures TargetSize(p, pointSize, v.hoveredCluster, sine) ==
              if v.hoveredCluster.Some? && p.cluster == v.hoveredCluster.value
              then pointSize * 1.5 * (1.0 + 0.5 * sine) else pointSize
  {
    if v.hoveredCluster.Some? {
      var c :| v.hoveredCluster.value == IntToString(c);
      assert |IntToString(c)| >= 1;
    }
  }
}
