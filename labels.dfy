/** The on-canvas labels of client/src/components/Labels.tsx: the labels of
    clusters other than the hovered one are drawn first, and the first label of
    the hovered cluster is drawn last, on top. */
module Labels {
  import opened Seqs
  import opened Numbers
  import opened Records

  /** `lbl => String(lbl.CLUSTER) === hoveredCluster`; never true with no hover. */
  function IsHovered(hovered: Option<string>): LabelItem -> bool
  {
    (lbl: LabelItem) => hovered == Some(IntToString(lbl.cluster))
  }

  /** The labels whose stringified cluster is not the hovered one, in order. */
  function NonHovered(labels: seq<LabelItem>, hovered: Option<string>): (r: seq<LabelItem>)
    ensures forall l :: l in r <==> l in labels && !IsHovered(hovered)(l)
    ensures IsSubsequence(r, labels)
    ensures forall l :: multiset(r)[l] == if IsHovered(hovered)(l) then 0 else multiset(labels)[l]
  {
    FilterMultiset(labels, Not(IsHovered(hovered)));
    FilterIsSubsequence(labels, Not(IsHovered(hovered)));
    Filter(labels, Not(IsHovered(hovered)))
  }

  /** The first label whose stringified cluster is the hovered one, if any. */
  function HoveredLabel(labels: seq<LabelItem>, hovered: Option<string>): (r: Option<LabelItem>)
    ensures r.None? <==> forall l :: l in labels ==> !IsHovered(hovered)(l)
    ensures r.Some? ==> exists k :: 0 <= k < |labels| && labels[k] == r.value && IsHovered(hovered)(r.value)
                          && forall j :: 0 <= j < k ==> !IsHovered(hovered)(labels[j])
  {
    Find(labels, IsHovered(hovered))
  }

  /** One `Html` element: the label, whether it is the hovered one, its CSS
      z-index, its depth and the z-index range the overlay is stacked in. */
  datatype Rendered = Rendered(item: LabelItem, isHovered: bool, zIndex: int, zPos: real, zRange: (int, int))

  function Plain(l: LabelItem): Rendered
  {
    Rendered(l, false, 0, 1.0, (0, 0))
  }

  function OnTop(l: LabelItem): Rendered
  {
    Rendered(l, true, 9999, 2.0, (9999, 9999))
  }

  /** The fragment's children: the non-hovered labels in order, then the
      hovered label, if any. */
  function RenderOrder(labels: seq<LabelItem>, hovered: Option<string>): (r: seq<Rendered>)
    ensures |r| <= |labels|
  {
    var p := IsHovered(hovered);
    CountComplement(labels, p);
    var top: seq<Rendered> := match HoveredLabel(labels, hovered) {
      case None => []
      case Some(l) => assert l in Filter(labels, p); [OnTop(l)]
    };
    PlainAll(NonHovered(labels, hovered)) + top
  }

  /** With no hover every label is drawn, in order, none of them on top. */
  lemma NoHoverDrawsAll(labels: seq<LabelItem>)
    ensures NonHovered(labels, None) == labels
    ensures HoveredLabel(labels, None) == None
    ensures RenderOrder(labels, None) == PlainAll(labels)
  {
    FilterAll(labels, Not(IsHovered(None)));
  }

  /** While cluster `c` is hovered, a label is drawn plainly exactly when its
      cluster is not `c`, and on top is the first label of `c`. */
  lemma HoverSplitsByCluster(labels: seq<LabelItem>, c: int)
    ensures forall l :: l in NonHovered(labels, Some(IntToString(c))) <==> l in labels && l.cluster != c
    ensures HoveredLabel(labels, Some(IntToString(c))).Some? <==> exists l :: l in labels && l.cluster == c
    ensures HoveredLabel(labels, Some(IntToString(c))).Some? ==>
              exists k :: 0 <= k < |labels| && labels[k] == HoveredLabel(labels, Some(IntToString(c))).value
                && labels[k].cluster == c && forall j :: 0 <= j < k ==> labels[j].cluster != c
  {
    forall l: LabelItem {
      IntToStringInjective(l.cluster, c);
    }
  }

  /** The plain elements, one per non-hovered label, in order. */
  function PlainAll(plain: seq<LabelItem>): (r: seq<Rendered>)
    ensures |r| == |plain|
    ensures forall i :: 0 <= i < |r| ==> r[i] == Plain(plain[i])
  {
    seq(|plain|, i requires 0 <= i < |plain| => Plain(plain[i]))
  }

  /** The fragment is the plain elements followed by the top one, if any. */
  lemma RenderOrderSplit(labels: seq<LabelItem>, hovered: Option<string>)
    ensures var h := HoveredLabel(labels, hovered);
      RenderOrder(labels, hovered) ==
        PlainAll(NonHovered(labels, hovered)) + (if h.Some? then [OnTop(h.value)] else [])
  {
  }

  /** Every non-hovered label is drawn plainly, all of them and in their
      order, and then the hovered label, if any, on top: it comes last and is
      the only one marked hovered, with z-index and z-index range 9999 at
      depth 2; every other element has z-index and range 0 at depth 1. */
  lemma RenderOrderLayers(labels: seq<LabelItem>, hovered: Option<string>)
    ensures var r, nh := RenderOrder(labels, hovered), NonHovered(labels, hovered);
      && |r| == |nh| + (if HoveredLabel(labels, hovered).Some? then 1 else 0)
      && (forall i :: 0 <= i < |nh| ==> r[i] == Plain(nh[i]))
      && (forall i :: 0 <= i < |r| ==>
            (r[i].isHovered <==> i == |r| - 1 && HoveredLabel(labels, hovered).Some?))
      && (forall i :: 0 <= i < |r| ==>
            if r[i].isHovered then r[i].zIndex == 9999 && r[i].zPos == 2.0 && r[i].zRange == (9999, 9999)
            else r[i].zIndex == 0 && r[i].zPos == 1.0 && r[i].zRange == (0, 0))
      && (HoveredLabel(labels, hovered).Some? ==> r[|r| - 1] == OnTop(HoveredLabel(labels, hovered).value))
  {
    var nh := NonHovered(labels, hovered);
    var h := HoveredLabel(labels, hovered);
    var plain := PlainAll(nh);
    var top: seq<Rendered> := if h.Some? then [OnTop(h.value)] else [];
    var r := RenderOrder(labels, hovered);
    RenderOrderSplit(labels, hovered);
    assert r == plain + top;
    forall i | 0 <= i < |r|
      ensures i < |nh| ==> r[i] == Plain(nh[i])
      ensures i >= |nh| ==> h.Some? && r[i] == OnTop(h.value)
    {
      if i < |nh| {
        assert r[i] == plain[i];
      } else {
        assert r[i] == top[i - |nh|];
      }
    }
  }

  /** Only the element on top shows a label of the hovered cluster: later
      labels of that cluster are not drawn at all. */
  lemma RenderOrderDrawsHoveredOnce(labels: seq<LabelItem>, hovered: Option<string>)
    ensures var r := RenderOrder(labels, hovered);
      && (forall i :: 0 <= i < |r| && !r[i].isHovered ==> !IsHovered(hovered)(r[i].item))
      && (forall i, j :: 0 <= i < |r| && 0 <= j < |r| && IsHovered(hovered)(r[i].item) && IsHovered(hovered)(r[j].item) ==> i == j)
  {
    var nh := NonHovered(labels, hovered);
    var h := HoveredLabel(labels, hovered);
    var plain := PlainAll(nh);
    var top: seq<Rendered> := if h.Some? then [OnTop(h.value)] else [];
    var r := RenderOrder(labels, hovered);
    RenderOrderSplit(labels, hovered);
    assert r == plain + top;
    forall i | 0 <= i < |r|
      ensures i < |plain| ==> !r[i].isHovered && !IsHovered(hovered)(r[i].item)
      ensures i >= |plain| ==> i == |r| - 1 && r[i].isHovered
    {
      if i < |plain| {
        assert r[i] == plain[i] == Plain(nh[i]);
        assert nh[i] in nh;
      } else {
        assert r[i] == top[i - |plain|];
      }
    }
  }
}
