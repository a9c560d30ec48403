/** The JavaScript number operations the views use: `String(n)` on an integer,
    `Math.round`, `Math.floor` and `Math.ceil`. Numbers are exact here
    (Dafny's `int` and `real`), not IEEE doubles. */
module Numbers {

  /** The decimal digit `d` as a character. */
  function DigitChar(d: nat): (c: char)
    requires d < 10
    ensures '0' <= c <= '9'
  {
    (('0' as int) + d) as char
  }

  /** The decimal numeral of `n`, without leading zeros. */
  function NatToString(n: nat): (s: string)
    ensures |s| >= 1
    ensures forall k :: 0 <= k < |s| ==> '0' <= s[k] <= '9'
    ensures n < 10 <==> |s| == 1
    decreases n
  {
    if n < 10 then [DigitChar(n)] else NatToString(n / 10) + [DigitChar(n % 10)]
  }

  /** `String(i)` for an integer `i`: an optional minus sign and the decimal numeral. */
  function IntToString(i: int): (s: string)
    ensures |s| >= 1
    ensures s[0] == '-' <==> i < 0
  {
    if i < 0 then "-" + NatToString(-i) else NatToString(i)
  }

  lemma {:induction false} NatToStringInjective(a: nat, b: nat)
    requires NatToString(a) == NatToString(b)
    ensures a == b
    decreases a
  {
    var sa, sb := NatToString(a), NatToString(b);
    if a >= 10 {
      assert |sb| == |sa| >= 2;
      assert sa[..|sa| - 1] == NatToString(a / 10);
      assert sb[..|sb| - 1] == NatToString(b / 10);
      NatToStringInjective(a / 10, b / 10);
      assert DigitChar(a % 10) == sa[|sa| - 1] == sb[|sb| - 1] == DigitChar(b % 10);
    }
  }

  /** A printed integer ends in a digit, whatever its sign. */
  lemma IntToStringEndsInDigit(i: int)
    ensures var s := IntToString(i); '0' <= s[|s| - 1] <= '9'
  {
    var n := NatToString(if i < 0 then -i else i);
    assert n[|n| - 1] in n;
    if i < 0 {
      assert IntToString(i) == "-" + n;
    }
  }

  /** Two integers print alike exactly when they are equal, so comparing
      `String(CLUSTER)` with a stored string is comparing cluster ids. */
  lemma IntToStringInjective(a: int, b: int)
    ensures IntToString(a) == IntToString(b) <==> a == b
  {
    if IntToString(a) == IntToString(b) {
      if a < 0 {
        assert IntToString(a)[1..] == NatToString(-a);
        assert IntToString(b)[1..] == NatToString(-b);
        NatToStringInjective(-a, -b);
      } else {
        NatToStringInjective(a, b);
      }
    }
  }

  /** Labels built as a fixed prefix followed by a printed integer are equal
      exactly when the integers are. */
  lemma PrefixedIntInjective(prefix: string, a: int, b: int)
    ensures prefix + IntToString(a) == prefix + IntToString(b) <==> a == b
  {
    if prefix + IntToString(a) == prefix + IntToString(b) {
      assert (prefix + IntToString(a))[|prefix|..] == IntToString(a);
      assert (prefix + IntToString(b))[|prefix|..] == IntToString(b);
      IntToStringInjective(a, b);
    }
  }

  /** `Math.floor`. */
  function Floor(x: real): (r: int)
    ensures r as real <= x < r as real + 1.0
  {
    x.Floor
  }

  /** `Math.ceil`. */
  function Ceil(x: real): (r: int)
    ensures r as real - 1.0 < x <= r as real
  {
    -((-x).Floor)
  }

  /** `Math.round`: the nearest integer, halves rounded up. */
  function Round(x: real): (r: int)
    ensures x - 0.5 < r as real <= x + 0.5
  {
    (x + 0.5).Floor
  }

  lemma RoundMonotonic(x: real, y: real)
    requires x <= y
    ensures Round(x) <= Round(y)
  {
  }

  lemma {:induction false} RoundOfInteger(n: int)
    ensures Round(n as real) == n
  {
    assert n as real - 0.5 < Round(n as real) as real <= n as real + 0.5;
  }
}
