/** `getMinVal` and `getMaxVal` of client/src/utils/data.ts: the rounded
    smallest and largest year. `Math.min()` and `Math.max()` of no arguments are
    the infinities, so for an empty list the result is `None` here. */
module DataUtils {
  import opened Seqs
  import opened Numbers
  import opened Records

  /** The smallest element of a non-empty list (`Math.min(...s)`). */
  function MinOf(s: seq<real>): (m: real)
    requires |s| > 0
    ensures forall k :: 0 <= k < |s| ==> m <= s[k]
    ensures exists k :: 0 <= k < |s| && m == s[k]
    decreases |s|
  {
    if |s| == 1 then s[0]
    else
      var m := MinOf(s[1..]);
      if s[0] <= m then s[0] else m
  }

  /** The largest element of a non-empty list (`Math.max(...s)`). */
  function MaxOf(s: seq<real>): (m: real)
    requires |s| > 0
    ensures forall k :: 0 <= k < |s| ==> s[k] <= m
    ensures exists k :: 0 <= k < |s| && m == s[k]
    decreases |s|
  {
    if |s| == 1 then s[0]
    else
      var m := MaxOf(s[1..]);
      if s[0] >= m then s[0] else m
  }

  /** `Math.round(Math.min(...values))`: at most the rounding of every value,
      and equal to the rounding of one of them. */
  function RoundedMin(values: seq<real>): (r: Option<int>)
    ensures r.None? <==> |values| == 0
    ensures r.Some? ==> forall k :: 0 <= k < |values| ==> r.value <= Round(values[k])
    ensures r.Some? ==> exists k :: 0 <= k < |values| && r.value == Round(values[k])
  {
    if |values| == 0 then None
    else
      var m := MinOf(values);
      assert forall k :: 0 <= k < |values| ==> Round(m) <= Round(values[k]) by {
        forall k | 0 <= k < |values| { RoundMonotonic(m, values[k]); }
      }
      Some(Round(m))
  }

  /** `Math.round(Math.max(...values))`. */
  function RoundedMax(values: seq<real>): (r: Option<int>)
    ensures r.None? <==> |values| == 0
    ensures r.Some? ==> forall k :: 0 <= k < |values| ==> Round(values[k]) <= r.value
    ensures r.Some? ==> exists k :: 0 <= k < |values| && r.value == Round(values[k])
  {
    if |values| == 0 then None
    else
      var m := MaxOf(values);
      assert forall k :: 0 <= k < |values| ==> Round(values[k]) <= Round(m) by {
        forall k | 0 <= k < |values| { RoundMonotonic(values[k], m); }
      }
      Some(Round(m))
  }

  /** The years of the loaded points, as numbers. */
  function Years(data: seq<DataItem>): (ys: seq<real>)
    ensures |ys| == |data|
    ensures forall k :: 0 <= k < |data| ==> ys[k] == data[k].year as real
  {
    seq(|data|, k requires 0 <= k < |data| => data[k].year as real)
  }

  /** `getMinVal(data)`: for integer years, exactly the smallest year. */
  function GetMinVal(data: seq<DataItem>): (r: Option<int>)
    ensures r.None? <==> |data| == 0
    ensures r.Some? ==> forall k :: 0 <= k < |data| ==> r.value <= data[k].year
    ensures r.Some? ==> exists k :: 0 <= k < |data| && r.value == data[k].year
  {
    var r := RoundedMin(Years(data));
    assert forall k :: 0 <= k < |data| ==> Round(Years(data)[k]) == data[k].year by {
      forall k | 0 <= k < |data| { RoundOfInteger(data[k].year); }
    }
    r
  }

  /** `getMaxVal(data)`: for integer years, exactly the largest year. */
  function GetMaxVal(data: seq<DataItem>): (r: Option<int>)
    ensures r.None? <==> |data| == 0
    ensures r.Some? ==> forall k :: 0 <= k < |data| ==> data[k].year <= r.value
    ensures r.Some? ==> exists k :: 0 <= k < |data| && r.value == data[k].year
  {
    var r := RoundedMax(Years(data));
    assert forall k :: 0 <= k < |data| ==> Round(Years(data)[k]) == data[k].year by {
      forall k | 0 <= k < |data| { RoundOfInteger(data[k].year); }
    }
    r
  }

  /** On loaded data the minimum never exceeds the maximum. */
  lemma MinAtMostMax(data: seq<DataItem>)
    requires |data| > 0
    ensures GetMinVal(data).Some? && GetMaxVal(data).Some?
    ensures GetMinVal(data).value <= GetMaxVal(data).value
  {
    assert GetMinVal(data).value <= data[0].year <= GetMaxVal(data).value;
  }
}
