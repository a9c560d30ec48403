/** The slider histogram shared by both variants of the app:
    `Array.from({length: Math.ceil(max - min)}, (_, i) => ({arg: Math.floor(min) + i, val: ...}))`,
    one bin per unit of the key, each counting the keys in `[arg, arg + 1)`. */
module Histograms {
  import opened Seqs
  import opened Numbers

  datatype Bin = Bin(arg: int, val: nat)

  /** `n` consecutive one-unit bins starting at `start`. */
  function Bins<T(==,!new)>(s: seq<T>, key: T -> real, start: int, n: nat): (bins: seq<Bin>)
    ensures |bins| == n
    decreases n
  {
    if n == 0 then []
    else [Bin(start, Count(s, HalfOpen(key, start as real, (start + 1) as real)))] + Bins(s, key, start + 1, n - 1)
  }

  /** `Array.from({length: k})` treats a negative length as zero. */
  function BinCount(minVal: real, maxVal: real): (n: nat)
    ensures n as real >= maxVal - minVal
    ensures maxVal - minVal > 0.0 ==> (n as real) - 1.0 < maxVal - minVal
    ensures maxVal - minVal <= 0.0 ==> n == 0
  {
    var k := Ceil(maxVal - minVal);
    if k < 0 then 0 else k
  }

  /** The histogram of the keys of `s` between `minVal` and `maxVal`. */
  function HistogramOf<T(==,!new)>(s: seq<T>, key: T -> real, minVal: real, maxVal: real): (bins: seq<Bin>)
    ensures |bins| == BinCount(minVal, maxVal)
  {
    Bins(s, key, Floor(minVal), BinCount(minVal, maxVal))
  }

  /** The sum of the bin counts. */
  function BinTotal(bins: seq<Bin>): nat
  {
    if bins == [] then 0 else bins[0].val + BinTotal(bins[1..])
  }

  /** Bin `i` is `[start + i, start + i + 1)` and counts the keys that fall in it. */
  lemma {:induction false} BinsAt<T(!new)>(s: seq<T>, key: T -> real, start: int, n: nat, i: nat)
    requires i < n
    ensures Bins(s, key, start, n)[i].arg == start + i
    ensures Bins(s, key, start, n)[i].val == Count(s, HalfOpen(key, (start + i) as real, (start + i + 1) as real))
    decreases n
  {
    if i > 0 {
      BinsAt(s, key, start + 1, n - 1, i - 1);
    }
  }

  /** The bins together count exactly the keys in `[start, start + n)`: nothing
      is counted twice and nothing between the first and last edge is lost. */
  lemma {:induction false} BinsTotal<T(!new)>(s: seq<T>, key: T -> real, start: int, n: nat)
    ensures BinTotal(Bins(s, key, start, n)) == Count(s, HalfOpen(key, start as real, (start + n) as real))
    decreases n
  {
    if n == 0 {
      FilterNone(s, HalfOpen(key, start as real, start as real));
    } else {
      BinsTotal(s, key, start + 1, n - 1);
      CountHalfOpenSplit(s, key, start as real, (start + 1) as real, (start + n) as real);
    }
  }
}
