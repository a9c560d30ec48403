/** The ranked side list of client/src/components/InfoBox.tsx: a copy of the
    rank list stably sorted by descending cluster count, numbered from 1, with
    the row of the hovered cluster emphasised. */
module InfoBox {
  import opened Seqs
  import opened Numbers
  import opened Records
  import opened ClientApp

  /** `clusterCounts[c] || 0`: the count of cluster `c`, 0 when absent. */
  function CountOf(counts: map<int, nat>, c: int): (n: nat)
    ensures c !in counts ==> n == 0
    ensures c in counts ==> n == counts[c]
  {
    if c in counts then counts[c] else 0
  }

  /** The sort key of a row: the count of its cluster. */
  function RankKey(counts: map<int, nat>, item: RankItem): nat
  {
    CountOf(counts, item.cluster)
  }

  /** The rows whose count is `k`. */
  function KeyIs(counts: map<int, nat>, k: nat): RankItem -> bool
  {
    (item: RankItem) => RankKey(counts, item) == k
  }

  /** Non-increasing in count: the order the comparator `countB - countA` asks for. */
  predicate Descending(counts: map<int, nat>, s: seq<RankItem>)
  {
    forall i, j :: 0 <= i < j < |s| ==> RankKey(counts, s[i]) >= RankKey(counts, s[j])
  }

  /** Inserts `x` into a descending list in front of the first row whose count
      is not larger, so `x` precedes the rows it ties with. */
  function Insert(counts: map<int, nat>, x: RankItem, r: seq<RankItem>): (res: seq<RankItem>)
    requires Descending(counts, r)
    ensures Descending(counts, res)
    ensures |res| == |r| + 1
    ensures res[0] == x || (r != [] && res[0] == r[0])
    decreases |r|
  {
    if r == [] || RankKey(counts, x) >= RankKey(counts, r[0]) then [x] + r
    else
      var rest := Insert(counts, x, r[1..]);
      assert r == [r[0]] + r[1..];
      assert RankKey(counts, r[0]) >= RankKey(counts, rest[0]);
      [r[0]] + rest
  }

  /** A copy of the rank list sorted stably by descending count, built by
      inserting from the back. */
  function SortByCount(counts: map<int, nat>, ranks: seq<RankItem>): (sorted: seq<RankItem>)
    ensures Descending(counts, sorted)
    ensures |sorted| == |ranks|
    decreases |ranks|
  {
    if ranks == [] then []
    else
      assert ranks == [ranks[0]] + ranks[1..];
      Insert(counts, ranks[0], SortByCount(counts, ranks[1..]))
  }

  /** Inserting adds `x` and keeps every other row. */
  lemma {:induction false} InsertPermutes(counts: map<int, nat>, x: RankItem, r: seq<RankItem>)
    requires Descending(counts, r)
    ensures multiset(Insert(counts, x, r)) == multiset(r) + multiset{x}
    decreases |r|
  {
    if r != [] && RankKey(counts, x) < RankKey(counts, r[0]) {
      InsertPermutes(counts, x, r[1..]);
      assert r == [r[0]] + r[1..];
    }
  }

  /** `sortedRanks` is a permutation of `rankData`: no row is lost or repeated. */
  lemma {:induction false} SortByCountPermutes(counts: map<int, nat>, ranks: seq<RankItem>)
    ensures multiset(SortByCount(counts, ranks)) == multiset(ranks)
    decreases |ranks|
  {
    if ranks != [] {
      SortByCountPermutes(counts, ranks[1..]);
      InsertPermutes(counts, ranks[0], SortByCount(counts, ranks[1..]));
      assert ranks == [ranks[0]] + ranks[1..];
    }
  }

  /** Inserting `x` adds it in front of the rows of its own count and leaves
      the rows of every other count untouched. */
  lemma {:induction false} InsertStable(counts: map<int, nat>, x: RankItem, r: seq<RankItem>, k: nat)
    requires Descending(counts, r)
    ensures Filter(Insert(counts, x, r), KeyIs(counts, k)) ==
            if RankKey(counts, x) == k then [x] + Filter(r, KeyIs(counts, k)) else Filter(r, KeyIs(counts, k))
    decreases |r|
  {
    var p := KeyIs(counts, k);
    if r == [] || RankKey(counts, x) >= RankKey(counts, r[0]) {
      FilterAppend([x], r, p);
    } else {
      var y, rest := r[0], r[1..];
      assert r == [y] + rest;
      var head := if p(y) then [y] else [];
      assert Insert(counts, x, r) == [y] + Insert(counts, x, rest);
      assert Filter([y], p) == head;
      InsertStable(counts, x, rest, k);
      FilterAppend([y], Insert(counts, x, rest), p);
      FilterAppend([y], rest, p);
      if RankKey(counts, x) == k {
        // y has a larger count than x, so it is not among the rows of count k.
        assert head == [];
      }
    }
  }

  /** Ties keep their order in the rank list: for every count, the rows of that
      count appear in the sorted list exactly as they do in the input. */
  lemma {:induction false} SortByCountStable(counts: map<int, nat>, ranks: seq<RankItem>, k: nat)
    ensures Filter(SortByCount(counts, ranks), KeyIs(counts, k)) == Filter(ranks, KeyIs(counts, k))
    decreases |ranks|
  {
    if ranks != [] {
      var p := KeyIs(counts, k);
      SortByCountStable(counts, ranks[1..], k);
      InsertStable(counts, ranks[0], SortByCount(counts, ranks[1..]), k);
      assert ranks == [ranks[0]] + ranks[1..];
      FilterAppend([ranks[0]], ranks[1..], p);
    }
  }

  /** The counts `clusterCounts` holds, read through `|| 0`, are the numbers of
      filtered points of each row's cluster. */
  lemma RankKeyCountsPoints(counts: map<int, nat>, filtered: seq<DataItem>, item: RankItem)
    requires forall c :: c in counts <==> ClusterCount(filtered, c) > 0
    requires forall c :: c in counts ==> counts[c] == ClusterCount(filtered, c)
    ensures CountOf(counts, item.cluster) == ClusterCount(filtered, item.cluster)
  {
  }

  /** A displayed row: its number, text and cluster, and whether it is emphasised. */
  datatype Row = Row(number: nat, text: string, cluster: int, emphasised: bool)

  /** `sortedRanks.map((r, index) => ...)`: row `index + 1`, emphasised when
      `hoveredCluster === String(CLUSTER)`. */
  function Rows(sorted: seq<RankItem>, hovered: Option<string>): (rows: seq<Row>)
    ensures |rows| == |sorted|
  {
    seq(|sorted|, i requires 0 <= i < |sorted| =>
      Row(i + 1, sorted[i].text, sorted[i].cluster, hovered == Some(IntToString(sorted[i].cluster))))
  }

  /** Rows are numbered `1..n` in sorted order and show the sorted rows' text;
      with no hover no row is emphasised, and while cluster `c` is hovered a
      row is emphasised exactly when it belongs to `c`. */
  lemma RowsShape(sorted: seq<RankItem>, hovered: Option<string>)
    ensures var rows := Rows(sorted, hovered);
      && (forall i :: 0 <= i < |rows| ==>
            rows[i].number == i + 1 && rows[i].text == sorted[i].text && rows[i].cluster == sorted[i].cluster)
      && (hovered.None? ==> forall i :: 0 <= i < |rows| ==> !rows[i].emphasised)
      && (forall c, i :: hovered == Some(IntToString(c)) && 0 <= i < |rows| ==>
            (rows[i].emphasised <==> rows[i].cluster == c))
  {
    var rows := Rows(sorted, hovered);
    forall c, i | hovered == Some(IntToString(c)) && 0 <= i < |rows|
      ensures rows[i].emphasised <==> rows[i].cluster == c
    {
      IntToStringInjective(sorted[i].cluster, c);
    }
  }

  /** The value a row's `onMouseEnter` stores: `String(CLUSTER)`. */
  function EnterValue(item: RankItem): (h: Option<string>)
    ensures h.Some? && h.value == IntToString(item.cluster)
  {
    Some(IntToString(item.cluster))
  }

  /** After entering row `i`, that row is emphasised, and so is any other row
      of the same cluster and no other. */
  lemma EnterEmphasisesRow(sorted: seq<RankItem>, i: nat)
    requires i < |sorted|
    ensures var rows := Rows(sorted, EnterValue(sorted[i]));
      && rows[i].emphasised
      && forall j :: 0 <= j < |rows| ==> (rows[j].emphasised <==> sorted[j].cluster == sorted[i].cluster)
  {
    RowsShape(sorted, EnterValue(sorted[i]));
  }

  /** The list on screen: the rows of the sorted copy; the input list is a
      value and stays as it was. */
  function RankList(counts: map<int, nat>, ranks: seq<RankItem>, hovered: Option<string>): (rows: seq<Row>)
    ensures |rows| == |ranks|
    ensures forall i, j :: 0 <= i < j < |rows| ==>
              CountOf(counts, rows[i].cluster) >= CountOf(counts, rows[j].cluster)
  {
    var sorted := SortByCount(counts, ranks);
    Rows(sorted, hovered)
  }
}
