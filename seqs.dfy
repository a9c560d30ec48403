/** Sequence operations shared by every view: the JavaScript array methods
    `filter`, `filter(...).length` and `find`, and the facts about them that the
    views rely on (order preservation, partition, counting over bands). */
module Seqs {

  datatype Option<+T> = None | Some(value: T)

  /** `r` is `s` with some elements dropped and the rest kept in order. */
  predicate IsSubsequence<T(==)>(r: seq<T>, s: seq<T>)
    decreases |s|
  {
    if r == [] then true
    else if s == [] then false
    else if r[0] == s[0] then IsSubsequence(r[1..], s[1..])
    else IsSubsequence(r, s[1..])
  }

  /** `Array.prototype.filter`: the elements of `s` that satisfy `p`, in order. */
  function Filter<T(==,!new)>(s: seq<T>, p: T -> bool): (r: seq<T>)
    ensures |r| <= |s|
    ensures forall k :: 0 <= k < |r| ==> p(r[k])
    ensures forall x :: x in r <==> x in s && p(x)
    decreases |s|
  {
    if s == [] then []
    else
      var rest := Filter(s[1..], p);
      assert s == [s[0]] + s[1..];
      if p(s[0]) then [s[0]] + rest else rest
  }

  /** A filter keeps the order of the elements it keeps. */
  lemma {:induction false} FilterIsSubsequence<T(!new)>(s: seq<T>, p: T -> bool)
    ensures IsSubsequence(Filter(s, p), s)
    decreases |s|
  {
    if s != [] {
      FilterIsSubsequence(s[1..], p);
      var rest := Filter(s[1..], p);
      if p(s[0]) {
        assert ([s[0]] + rest)[1..] == rest;
      } else if rest != [] {
        assert p(rest[0]);
      }
    }
  }

  /** As a multiset, a filter keeps every occurrence of a satisfying element
      and drops every occurrence of the others. */
  lemma {:induction false} FilterMultiset<T(!new)>(s: seq<T>, p: T -> bool)
    ensures forall x :: multiset(Filter(s, p))[x] == if p(x) then multiset(s)[x] else 0
    decreases |s|
  {
    if s != [] {
      FilterMultiset(s[1..], p);
      assert s == [s[0]] + s[1..];
    }
  }

  /** `r` is what filtering `s` by `p` has to give: a subsequence of `s`
      holding every element that satisfies `p` as often as `s` does, and no
      other element. */
  ghost predicate Selects<T(!new)>(r: seq<T>, s: seq<T>, p: T -> bool)
  {
    && IsSubsequence(r, s)
    && forall x :: multiset(r)[x] == if p(x) then multiset(s)[x] else 0
  }

  /** The filter selects. */
  lemma FilterSelects<T(!new)>(s: seq<T>, p: T -> bool)
    ensures Selects(Filter(s, p), s, p)
  {
    FilterIsSubsequence(s, p);
    FilterMultiset(s, p);
  }

  /** A subsequence has no element more often than the sequence it is taken from. */
  lemma {:induction false} SubsequenceMultiset<T>(r: seq<T>, s: seq<T>)
    requires IsSubsequence(r, s)
    ensures multiset(r) <= multiset(s)
    decreases |s|
  {
    if r != [] {
      assert s == [s[0]] + s[1..];
      if r[0] == s[0] {
        SubsequenceMultiset(r[1..], s[1..]);
        assert r == [r[0]] + r[1..];
      } else {
        SubsequenceMultiset(r, s[1..]);
      }
    }
  }

  /** Only the filter selects: a subsequence with the filter's multiplicities
      is the filter itself, so order and repeats are fixed as well. */
  lemma {:induction false} SelectsIsFilter<T(!new)>(r: seq<T>, s: seq<T>, p: T -> bool)
    requires Selects(r, s, p)
    ensures r == Filter(s, p)
    decreases |s|
  {
    if s != [] {
      var x, t := s[0], s[1..];
      assert s == [x] + t;
      if p(x) {
        assert multiset(r)[x] == multiset(s)[x] >= 1;
        if r[0] != x {
          SubsequenceMultiset(r, t);
          assert false;
        }
        var u := r[1..];
        assert r == [x] + u;
        forall y ensures multiset(u)[y] == if p(y) then multiset(t)[y] else 0 {
          assert multiset(r)[y] == multiset(u)[y] + (if y == x then 1 else 0);
          assert multiset(s)[y] == multiset(t)[y] + (if y == x then 1 else 0);
        }
        SelectsIsFilter(u, t, p);
      } else {
        if r != [] {
          assert r[0] in multiset(r);
          assert r[0] != x;
        }
        forall y ensures multiset(r)[y] == if p(y) then multiset(t)[y] else 0 {
          assert multiset(s)[y] == multiset(t)[y] + (if y == x then 1 else 0);
        }
        SelectsIsFilter(r, t, p);
      }
    }
  }

  /** `s.filter(p).length`. */
  function Count<T(==,!new)>(s: seq<T>, p: T -> bool): (n: nat)
    ensures n <= |s|
  {
    |Filter(s, p)|
  }

  /** The negation of a predicate, as a function value. */
  function Not<T>(p: T -> bool): T -> bool
  {
    x => !p(x)
  }

  /** The index of the first element of `s` that satisfies `p`, or `|s|` when none does. */
  function FirstIndex<T>(s: seq<T>, p: T -> bool): (i: nat)
    ensures i <= |s|
    ensures forall j :: 0 <= j < i ==> !p(s[j])
    ensures i < |s| ==> p(s[i])
    decreases |s|
  {
    if s == [] then 0
    else if p(s[0]) then 0
    else 1 + FirstIndex(s[1..], p)
  }

  /** `Array.prototype.find`: the first element of `s` that satisfies `p`, if any. */
  function Find<T>(s: seq<T>, p: T -> bool): (r: Option<T>)
    ensures r.None? <==> forall k :: 0 <= k < |s| ==> !p(s[k])
    ensures r.Some? ==> exists k :: 0 <= k < |s| && s[k] == r.value && p(s[k]) &&
                                    forall j :: 0 <= j < k ==> !p(s[j])
  {
    var i := FirstIndex(s, p);
    if i < |s| then Some(s[i]) else None
  }

  /** Keys compared against half-open, closed and lower-bounded intervals. */
  function HalfOpen<T>(key: T -> real, lo: real, hi: real): T -> bool
  {
    x => lo <= key(x) < hi
  }

  function Closed<T>(key: T -> real, lo: real, hi: real): T -> bool
  {
    x => lo <= key(x) <= hi
  }

  function AtLeast<T>(key: T -> real, lo: real): T -> bool
  {
    x => lo <= key(x)
  }

  /** Filtering distributes over concatenation: a filter never reorders. */
  lemma {:induction false} FilterAppend<T(!new)>(a: seq<T>, b: seq<T>, p: T -> bool)
    ensures Filter(a + b, p) == Filter(a, p) + Filter(b, p)
    decreases |a|
  {
    if a == [] {
      assert a + b == b;
    } else {
      assert (a + b)[1..] == a[1..] + b;
      FilterAppend(a[1..], b, p);
    }
  }

  lemma CountAppend<T(!new)>(a: seq<T>, b: seq<T>, p: T -> bool)
    ensures Count(a + b, p) == Count(a, p) + Count(b, p)
  {
    FilterAppend(a, b, p);
  }

  /** Filtering by a predicate that every element satisfies is the identity. */
  lemma {:induction false} FilterAll<T(!new)>(s: seq<T>, p: T -> bool)
    requires forall k :: 0 <= k < |s| ==> p(s[k])
    ensures Filter(s, p) == s
    decreases |s|
  {
    if s != [] {
      FilterAll(s[1..], p);
    }
  }

  /** Filtering by a predicate that no element satisfies gives the empty sequence. */
  lemma {:induction false} FilterNone<T(!new)>(s: seq<T>, p: T -> bool)
    requires forall k :: 0 <= k < |s| ==> !p(s[k])
    ensures Filter(s, p) == []
    decreases |s|
  {
    if s != [] {
      FilterNone(s[1..], p);
    }
  }

  /** Every element is counted by exactly one of `p` and its negation. */
  lemma {:induction false} CountComplement<T(!new)>(s: seq<T>, p: T -> bool)
    ensures Count(s, p) + Count(s, Not(p)) == |s|
    decreases |s|
  {
    if s != [] {
      CountComplement(s[1..], p);
    }
  }

  /** Two predicates that agree on every element of `s` filter it alike. */
  lemma {:induction false} FilterCongruent<T(!new)>(s: seq<T>, p: T -> bool, q: T -> bool)
    requires forall k :: 0 <= k < |s| ==> p(s[k]) == q(s[k])
    ensures Filter(s, p) == Filter(s, q)
    decreases |s|
  {
    if s != [] {
      FilterCongruent(s[1..], p, q);
    }
  }

  /** Adjacent half-open intervals: counting over `[a, b)` and `[b, c)` is counting over `[a, c)`. */
  lemma {:induction false} CountHalfOpenSplit<T(!new)>(s: seq<T>, key: T -> real, a: real, b: real, c: real)
    requires a <= b <= c
    ensures Count(s, HalfOpen(key, a, b)) + Count(s, HalfOpen(key, b, c)) == Count(s, HalfOpen(key, a, c))
    decreases |s|
  {
    if s != [] {
      CountHalfOpenSplit(s[1..], key, a, b, c);
    }
  }

  /** `[a, b)` followed by everything from `b` on is everything from `a` on. */
  lemma {:induction false} CountAtLeastSplit<T(!new)>(s: seq<T>, key: T -> real, a: real, b: real)
    requires a <= b
    ensures Count(s, HalfOpen(key, a, b)) + Count(s, AtLeast(key, b)) == Count(s, AtLeast(key, a))
    decreases |s|
  {
    if s != [] {
      CountAtLeastSplit(s[1..], key, a, b);
    }
  }
}
