/** One group of points drawn by client/src/components/ScatterPlot.tsx: the
    padded bounding box, the position and size buffers, the one-shot camera
    fit, and the per-frame loop that rewrites the size buffer so that the
    points of the highlighted cluster pulse. */
module ScatterPlot {
  import opened Seqs
  import opened Records

  // ---------------------------------------------------------------------------
  // Bounds
  // ---------------------------------------------------------------------------

  /** `{minX, maxX, minY, maxY}`. */
  datatype Box = Box(minX: real, maxX: real, minY: real, maxY: real)

  /** The box grown to take in one more point (one step of the `reduce`). */
  function Grow(b: Box, p: Point): (g: Box)
    ensures g.minX <= p.x <= g.maxX && g.minY <= p.y <= g.maxY
    ensures g.minX <= b.minX && b.maxX <= g.maxX && g.minY <= b.minY && b.maxY <= g.maxY
    ensures (g.minX == b.minX || g.minX == p.x) && (g.maxX == b.maxX || g.maxX == p.x)
    ensures (g.minY == b.minY || g.minY == p.y) && (g.maxY == b.maxY || g.maxY == p.y)
  {
    Box(if p.x < b.minX then p.x else b.minX, if p.x > b.maxX then p.x else b.maxX,
        if p.y < b.minY then p.y else b.minY, if p.y > b.maxY then p.y else b.maxY)
  }

  /** Every point lies in the box. */
  predicate Contains(b: Box, points: seq<Point>)
  {
    forall k :: 0 <= k < |points| ==> b.minX <= points[k].x <= b.maxX && b.minY <= points[k].y <= b.maxY
  }

  /** The `reduce` of `computedBounds` over a non-empty list, from the left:
      the smallest box holding every point, each of its sides touched by some
      point. (From the infinite start box the first step gives the first
      point's degenerate box.) */
  function Extent(points: seq<Point>): (b: Box)
    requires |points| > 0
    ensures Contains(b, points)
    ensures exists k :: 0 <= k < |points| && points[k].x == b.minX
    ensures exists k :: 0 <= k < |points| && points[k].x == b.maxX
    ensures exists k :: 0 <= k < |points| && points[k].y == b.minY
    ensures exists k :: 0 <= k < |points| && points[k].y == b.maxY
    decreases |points|
  {
    var n := |points|;
    if n == 1 then Box(points[0].x, points[0].x, points[0].y, points[0].y)
    else
      var prefix := points[..n - 1];
      var b := Extent(prefix);
      assert forall k :: 0 <= k < n - 1 ==> prefix[k] == points[k];
      Grow(b, points[n - 1])
  }

  /** `computedBounds`: `null` for no points, otherwise the extent widened on
      each side by `padding` times its width (or height). */
  function Bounds(points: seq<Point>, padding: real): (r: Option<Box>)
    ensures r.None? <==> |points| == 0
    ensures r.Some? && padding >= 0.0 ==> Contains(r.value, points)
    ensures r.Some? && padding == 0.0 ==> r.value == Extent(points)
  {
    if |points| == 0 then None
    else
      var e := Extent(points);
      var b := Pad(e, padding);
      PadWidens(e, padding);
      Some(b)
  }

  /** The box widened on each side by `padding` times its width (or height). */
  function Pad(e: Box, padding: real): Box
  {
    var xPad := (e.maxX - e.minX) * padding;
    var yPad := (e.maxY - e.minY) * padding;
    Box(e.minX - xPad, e.maxX + xPad, e.minY - yPad, e.maxY + yPad)
  }

  lemma PadWidens(e: Box, padding: real)
    requires e.minX <= e.maxX && e.minY <= e.maxY
    ensures padding >= 0.0 ==> Pad(e, padding).minX <= e.minX && e.maxX <= Pad(e, padding).maxX
    ensures padding >= 0.0 ==> Pad(e, padding).minY <= e.minY && e.maxY <= Pad(e, padding).maxY
    ensures padding == 0.0 ==> Pad(e, padding) == e
  {
    if padding >= 0.0 {
      ScaleBetween(padding, e.maxX - e.minX, 0.0, e.maxX - e.minX);
      ScaleBetween(padding, e.maxY - e.minY, 0.0, e.maxY - e.minY);
    }
  }

  /** Padding is symmetric: the padded box has the extent's centre and
      `1 + 2 * padding` times its width and height. */
  lemma BoundsSymmetric(points: seq<Point>, padding: real)
    requires |points| > 0
    ensures var b, e := Bounds(points, padding).value, Extent(points);
      && b.maxX - b.minX == (e.maxX - e.minX) * (1.0 + 2.0 * padding)
      && b.maxY - b.minY == (e.maxY - e.minY) * (1.0 + 2.0 * padding)
      && b.minX + b.maxX == e.minX + e.maxX
      && b.minY + b.maxY == e.minY + e.maxY
  {
    assert Bounds(points, padding) == Some(Pad(Extent(points), padding));
    PadShape(Extent(points), padding);
  }

  lemma PadShape(e: Box, padding: real)
    ensures var b := Pad(e, padding);
      && b.maxX - b.minX == (e.maxX - e.minX) * (1.0 + 2.0 * padding)
      && b.maxY - b.minY == (e.maxY - e.minY) * (1.0 + 2.0 * padding)
      && b.minX + b.maxX == e.minX + e.maxX
      && b.minY + b.maxY == e.minY + e.maxY
  {
    PadSymmetric(e.minX, e.maxX, padding);
    PadSymmetric(e.minY, e.maxY, padding);
  }

  /** One axis of `Pad`: widening `[lo, hi]` by `(hi - lo) * padding` on both sides. */
  lemma PadSymmetric(lo: real, hi: real, padding: real)
    ensures (hi + (hi - lo) * padding) - (lo - (hi - lo) * padding) == (hi - lo) * (1.0 + 2.0 * padding)
    ensures (lo - (hi - lo) * padding) + (hi + (hi - lo) * padding) == lo + hi
  {
    var w := hi - lo;
    assert w * (1.0 + 2.0 * padding) == w + 2.0 * (w * padding);
  }

  /** For any `padding` down to `-1/2` the box has no negative side, so the
      fit below can use it. */
  lemma BoundsNonNegative(points: seq<Point>, padding: real)
    requires |points| > 0 && padding >= -0.5
    ensures var b := Bounds(points, padding).value; b.minX <= b.maxX && b.minY <= b.maxY
  {
    assert Bounds(points, padding) == Some(Pad(Extent(points), padding));
    PadNonNegative(Extent(points), padding);
  }

  lemma PadNonNegative(e: Box, padding: real)
    requires e.minX <= e.maxX && e.minY <= e.maxY && padding >= -0.5
    ensures Pad(e, padding).minX <= Pad(e, padding).maxX && Pad(e, padding).minY <= Pad(e, padding).maxY
  {
    PadShape(e, padding);
    ScaleBetween(e.maxX - e.minX, 1.0 + 2.0 * padding, 0.0, 1.0 + 2.0 * padding);
    ScaleBetween(e.maxY - e.minY, 1.0 + 2.0 * padding, 0.0, 1.0 + 2.0 * padding);
  }

  // ---------------------------------------------------------------------------
  // Buffers
  // ---------------------------------------------------------------------------

  /** `positions`: a zeroed buffer of `3n` numbers, filled point by point with
      `X`, `Y` and the depth `i * 0.00001` that keeps points from overlapping. */
  method Positions(points: seq<Point>) returns (arr: array<real>)
    ensures arr.Length == 3 * |points|
    ensures forall i :: 0 <= i < |points| ==>
              arr[3 * i] == points[i].x && arr[3 * i + 1] == points[i].y && arr[3 * i + 2] == (i as real) * 0.00001
  {
    arr := new real[3 * |points|](_ => 0.0);
    for i := 0 to |points|
      invariant forall j :: 0 <= j < i ==>
                  arr[3 * j] == points[j].x && arr[3 * j + 1] == points[j].y && arr[3 * j + 2] == (j as real) * 0.00001
    {
      arr[3 * i] := points[i].x;
      arr[3 * i + 1] := points[i].y;
      arr[3 * i + 2] := (i as real) * 0.00001;
    }
  }

  /** `sizes`: one entry per point, each the base `pointSize`. */
  method Sizes(n: nat, pointSize: real) returns (arr: array<real>)
    ensures arr.Length == n
    ensures forall i :: 0 <= i < n ==> arr[i] == pointSize
  {
    arr := new real[n](_ => 0.0);
    for i := 0 to n
      invariant forall j :: 0 <= j < i ==> arr[j] == pointSize
    {
      arr[i] := pointSize;
    }
  }

  // ---------------------------------------------------------------------------
  // Camera fit
  // ---------------------------------------------------------------------------

  /** A camera zoom: a number, or the `Infinity` that JavaScript division by
      zero yields. */
  datatype Zoom = Finite(value: real) | Infinite

  /** `zoom * 0.9` with `zoom = viewAspect > dataAspect ? viewHeight / dataHeight
      : viewWidth / dataWidth`, under JavaScript division: a zero height makes
      `dataAspect` infinite (or `NaN` when the width is zero too), which no
      comparison exceeds, so the width decides; both zero gives `Infinity`. */
  function FitZoom(dataW: real, dataH: real, viewW: real, viewH: real): (z: Zoom)
    requires viewW > 0.0 && viewH > 0.0 && dataW >= 0.0 && dataH >= 0.0
    ensures z.Infinite? <==> dataW == 0.0 && dataH == 0.0
    ensures z.Finite? ==> z.value > 0.0
  {
    if dataH > 0.0 then
      if viewW / viewH > dataW / dataH then Finite(0.9 * (viewH / dataH))
      else Finite(0.9 * (viewW / dataW))
    else if dataW > 0.0 then Finite(0.9 * (viewW / dataW))
    else Infinite
  }

  /** Unless the box is a single point, the zoom makes the data fill 90% of
      the view along one axis and no more than 90% along the other (a box of
      zero height or width fills the view along its other axis). */
  lemma FitZoomFits(dataW: real, dataH: real, viewW: real, viewH: real)
    requires viewW > 0.0 && viewH > 0.0 && dataW >= 0.0 && dataH >= 0.0
    requires dataW > 0.0 || dataH > 0.0
    ensures var z := FitZoom(dataW, dataH, viewW, viewH);
      && z.Finite?
      && dataW * z.value <= 0.9 * viewW
      && dataH * z.value <= 0.9 * viewH
      && (dataW * z.value == 0.9 * viewW || dataH * z.value == 0.9 * viewH)
  {
    var z := FitZoom(dataW, dataH, viewW, viewH);
    if dataH == 0.0 {
      assert z.value * dataW == 0.9 * viewW;
    } else if viewW / viewH > dataW / dataH {
      assert viewW * dataH > dataW * viewH by {
        AspectCross(viewW, viewH, dataW, dataH);
      }
      assert z.value * dataH == 0.9 * viewH;
      assert dataW * z.value == 0.9 * (dataW * viewH / dataH);
      assert dataW * viewH / dataH < viewW;
    } else {
      assert viewW * dataH <= dataW * viewH by {
        AspectCross(viewW, viewH, dataW, dataH);
      }
      assert z.value * dataW == 0.9 * viewW;
      assert dataH * z.value == 0.9 * (dataH * viewW / dataW);
      assert dataH * viewW / dataW <= viewH;
    }
  }

  /** Comparing two ratios of positive numbers is comparing the cross products. */
  lemma AspectCross(a: real, b: real, c: real, d: real)
    requires b > 0.0 && d > 0.0
    ensures a / b > c / d <==> a * d > c * b
  {
    assert a / b * (b * d) == a * d;
    assert c / d * (b * d) == c * b;
  }

  /** A group of a single point (or of coincident points) has no extent:
      `0 / 0` leaves the zoom `Infinity`. */
  lemma SinglePointFitIsInfinite(p: Point, padding: real, viewW: real, viewH: real)
    requires viewW > 0.0 && viewH > 0.0
    ensures var b := Bounds([p], padding).value;
      FitZoom(b.maxX - b.minX, b.maxY - b.minY, viewW, viewH) == Infinite
  {
  }

  /** The parts of the orthographic camera the fit sets. */
  class Camera {
    var zoom: Zoom
    var x: real
    var y: real
    var z: real

    constructor(zoom: Zoom, x: real, y: real, z: real)
      ensures this.zoom == zoom && this.x == x && this.y == y && this.z == z
    {
      this.zoom := zoom;
      this.x := x;
      this.y := y;
      this.z := z;
    }
  }

  /** The `needsInitialFit` state of one component instance, with a ghost
      count of the fits done so far. */
  class FitLatch {
    var needsInitialFit: bool
    ghost var fits: nat

    /** The latch is set exactly until the one fit has happened. */
    ghost predicate Valid()
      reads this
    {
      fits <= 1 && (needsInitialFit <==> fits == 0)
    }

    /** `useState(true)`. */
    constructor()
      ensures Valid() && needsInitialFit && fits == 0
    {
      needsInitialFit := true;
      fits := 0;
    }

    /** The fit effect: skipped unless the latch is set, the bounds exist and
        the camera is orthographic; otherwise it sets the zoom, centres the
        camera on the bounds at depth 100 and clears the latch. */
    method FitEffect(bounds: Option<Box>, camera: Camera, isOrthographic: bool, viewW: real, viewH: real)
      requires Valid()
      requires viewW > 0.0 && viewH > 0.0
      requires bounds.Some? ==> bounds.value.minX <= bounds.value.maxX && bounds.value.minY <= bounds.value.maxY
      modifies this, camera
      ensures Valid()
      ensures fits == old(fits) + (if old(needsInitialFit) && bounds.Some? && isOrthographic then 1 else 0)
      ensures if old(needsInitialFit) && bounds.Some? && isOrthographic then
                var b := bounds.value;
                && camera.zoom == FitZoom(b.maxX - b.minX, b.maxY - b.minY, viewW, viewH)
                && camera.x == (b.maxX + b.minX) / 2.0
                && camera.y == (b.maxY + b.minY) / 2.0
                && camera.z == 100.0
                && !needsInitialFit
              else unchanged(camera) && needsInitialFit == old(needsInitialFit)
    {
      if !needsInitialFit || bounds.None? || !isOrthographic {
        return;
      }
      var b := bounds.value;
      camera.zoom := FitZoom(b.maxX - b.minX, b.maxY - b.minY, viewW, viewH);
      camera.x, camera.y, camera.z := (b.maxX + b.minX) / 2.0, (b.maxY + b.minY) / 2.0, 100.0;
      needsInitialFit := false;
      fits := fits + 1;
    }
  }

  /** However often the effect runs, the camera is fitted at most once: once
      fitted, a further run changes nothing. */
  method FitAtMostOnce(latch: FitLatch, bounds: Option<Box>, camera: Camera, viewW: real, viewH: real)
    requires latch.Valid() && latch.fits == 1
    requires viewW > 0.0 && viewH > 0.0
    requires bounds.Some? ==> bounds.value.minX <= bounds.value.maxX && bounds.value.minY <= bounds.value.maxY
    modifies latch, camera
    ensures latch.Valid() && latch.fits == 1
    ensures unchanged(camera)
  {
    latch.FitEffect(bounds, camera, true, viewW, viewH);
  }

  // ---------------------------------------------------------------------------
  // Frame loop
  // ---------------------------------------------------------------------------

  /** The size a point should have this frame: the base size, or, when a
      cluster is highlighted (a non-empty string; `""` is falsy) and the point
      is in it, `pointSize * 1.5 * (1 + 0.5 * sine)` for the point's
      `Math.sin(time * 2.5 + phase)`. */
  function TargetSize(p: Point, pointSize: real, highlighted: Option<string>, sine: real): (s: real)
    ensures highlighted.None? || p.cluster != highlighted.value ==> s == pointSize
    ensures pointSize >= 0.0 && -1.0 <= sine <= 1.0 ==> 0.75 * pointSize <= s <= 2.25 * pointSize
  {
    if highlighted.Some? && highlighted.value != "" && p.cluster == highlighted.value then
      var f := 1.5 + 0.75 * sine;
      var s := pointSize * 1.5 * (1.0 + 0.5 * sine);
      assert s == pointSize * f;
      assert -1.0 <= sine <= 1.0 ==> 0.75 <= f <= 2.25;
      ScaleBetween(pointSize, f, 0.75, 2.25);
      s
    else pointSize
  }

  /** The sizes of every point for this frame. */
  function TargetSizes(points: seq<Point>, pointSize: real, highlighted: Option<string>, sines: seq<real>): (r: seq<real>)
    requires |sines| == |points|
    ensures |r| == |points|
  {
    seq(|points|, i requires 0 <= i < |points| => TargetSize(points[i], pointSize, highlighted, sines[i]))
  }

  /** A point outside the highlighted cluster, or any point when nothing is
      highlighted, has the base size; a highlighted one, with the sine in
      `[-1, 1]`, lies between `0.75` and `2.25` times the base size. */
  lemma TargetSizesShape(points: seq<Point>, pointSize: real, highlighted: Option<string>, sines: seq<real>)
    requires |sines| == |points| && pointSize >= 0.0
    requires forall i :: 0 <= i < |sines| ==> -1.0 <= sines[i] <= 1.0
    ensures var r := TargetSizes(points, pointSize, highlighted, sines);
      && (forall i :: 0 <= i < |r| && (highlighted.None? || points[i].cluster != highlighted.value) ==> r[i] == pointSize)
      && (forall i :: 0 <= i < |r| ==> 0.75 * pointSize <= r[i] <= 2.25 * pointSize)
  {
    var r := TargetSizes(points, pointSize, highlighted, sines);
    forall i | 0 <= i < |r| ensures 0.75 * pointSize <= r[i] <= 2.25 * pointSize {
      assert r[i] == TargetSize(points[i], pointSize, highlighted, sines[i]);
    }
  }

  /** Scaling a non-negative amount by a factor between `lo` and `hi`. */
  lemma ScaleBetween(a: real, f: real, lo: real, hi: real)
    ensures a >= 0.0 && lo <= f <= hi ==> a * lo <= a * f <= a * hi
  {
  }

  /** The `aSize` buffer attribute: the size array and its upload flag. */
  class SizeAttribute {
    var sizes: array<real>
    var needsUpdate: bool

    constructor(sizes: array<real>)
      ensures this.sizes == sizes && !needsUpdate
    {
      this.sizes := sizes;
      needsUpdate := false;
    }
  }

  /** One `useFrame` callback: writes each point's target size where it
      differs and raises `needsUpdate` exactly when some entry changed. */
  method FrameUpdate(attr: SizeAttribute, points: seq<Point>, pointSize: real, highlighted: Option<string>, sines: seq<real>)
    requires attr.sizes.Length == |points| == |sines|
    modifies attr, attr.sizes
    ensures attr.sizes == old(attr.sizes)
    ensures attr.sizes[..] == TargetSizes(points, pointSize, highlighted, sines)
    ensures attr.needsUpdate == (old(attr.needsUpdate) || old(attr.sizes[..]) != attr.sizes[..])
  {
    var a := attr.sizes;
    ghost var before := a[..];
    ghost var target := TargetSizes(points, pointSize, highlighted, sines);
    var updated := false;
    for i := 0 to |points|
      invariant unchanged(attr)
      invariant a[..i] == target[..i]
      invariant forall k :: i <= k < a.Length ==> a[k] == before[k]
      invariant updated <==> before[..i] != target[..i]
    {
      var t := TargetSize(points[i], pointSize, highlighted, sines[i]);
      assert t == target[i];
      assert before[..i + 1] == before[..i] + [before[i]];
      assert target[..i + 1] == target[..i] + [target[i]];
      if a[i] != t {
        a[i] := t;
        updated := true;
      }
      assert a[..i + 1] == a[..i] + [a[i]];
    }
    assert a[..] == a[..|points|] && before == before[..|points|] && target == target[..|points|];
    if updated {
      attr.needsUpdate := true;
    }
  }
}
