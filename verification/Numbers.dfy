/** Exact arithmetic shared by the calculators: outcomes, clamps and range sums. */
module Numbers {

  datatype Option<+T> = None | Some(value: T)

  /** A computed value, or the ValueError the routine raises instead. */
  datatype Outcome<+T> = Ok(value: T) | ValueError

  function Max(a: real, b: real): real {
    if a < b then b else a
  }

  function Min(a: real, b: real): real {
    if b < a then b else a
  }

  /** The sum of s[i..j]. */
  function SumRange(s: seq<real>, i: nat, j: nat): real
    requires i <= j <= |s|
    decreases j
  {
    if i == j then 0.0 else SumRange(s, i, j - 1) + s[j - 1]
  }

  function Sum(s: seq<real>): real {
    SumRange(s, 0, |s|)
  }

  lemma {:induction false} SumSplit(s: seq<real>, i: nat, k: nat, j: nat)
    requires i <= k <= j <= |s|
    ensures SumRange(s, i, j) == SumRange(s, i, k) + SumRange(s, k, j)
    decreases j
  {
    if k < j {
      SumSplit(s, i, k, j - 1);
    }
  }

  /** Equal stretches of two sequences have equal sums. */
  lemma {:induction false} SumAgree(s: seq<real>, i: nat, t: seq<real>, j: nat, n: nat)
    requires i + n <= |s| && j + n <= |t|
    requires s[i..i + n] == t[j..j + n]
    ensures SumRange(s, i, i + n) == SumRange(t, j, j + n)
    decreases n
  {
    if n > 0 {
      assert s[i..i + n - 1] == s[i..i + n][..n - 1];
      assert t[j..j + n - 1] == t[j..j + n][..n - 1];
      assert s[i + n - 1] == s[i..i + n][n - 1] == t[j..j + n][n - 1];
      SumAgree(s, i, t, j, n - 1);
    }
  }

  lemma SumConcat(a: seq<real>, b: seq<real>)
    ensures Sum(a + b) == Sum(a) + Sum(b)
  {
    SumSplit(a + b, 0, |a|, |a + b|);
    SumAgree(a + b, 0, a, 0, |a|);
    SumAgree(a + b, |a|, b, 0, |b|);
  }

  /** Scaling every term by c scales the range sum by c. */
  lemma {:induction false} SumScaled(s: seq<real>, c: real, t: seq<real>, i: nat, j: nat)
    requires |s| == |t| && i <= j <= |s|
    requires forall k :: 0 <= k < |s| ==> t[k] == c * s[k]
    ensures SumRange(t, i, j) == c * SumRange(s, i, j)
    decreases j
  {
    if i < j {
      SumScaled(s, c, t, i, j - 1);
    }
  }

  /** Range sums add term by term. */
  lemma {:induction false} SumAdded(s: seq<real>, t: seq<real>, u: seq<real>, i: nat, j: nat)
    requires |s| == |t| == |u| && i <= j <= |s|
    requires forall k :: 0 <= k < |s| ==> u[k] == s[k] + t[k]
    ensures SumRange(u, i, j) == SumRange(s, i, j) + SumRange(t, i, j)
    decreases j
  {
    if i < j {
      SumAdded(s, t, u, i, j - 1);
    }
  }

  /** The least whole number not below x (Decimal ROUND_CEILING). */
  function Ceiling(x: real): int {
    -((-x).Floor)
  }

  function PowerOfTen(n: nat): (r: int)
    ensures r > 0
  {
    if n == 0 then 1 else 10 * PowerOfTen(n - 1)
  }

  lemma ScaleLe(a: real, b: real, c: real)
    requires a <= b && c >= 0.0
    ensures a * c <= b * c
    ensures c * a <= c * b
  {
    assert b * c - a * c == (b - a) * c;
  }

  lemma ProductPositive(a: real, b: real)
    requires a > 0.0 && b > 0.0
    ensures a * b > 0.0
  {
  }

  lemma QuotientLe(c: real, q: real, c': real, q': real)
    requires q > 0.0 && q' > 0.0 && c * q' <= c' * q
    ensures c / q <= c' / q'
  {
    var x, x' := c / q, c' / q';
    ProductPositive(q, q');
    assert c == x * q && c' == x' * q';
    assert (x * q) * q' == x * (q * q') && (x' * q') * q == x' * (q * q');
    if x' < x {
      ProductPositive(x - x', q * q');
      assert false;
    }
  }

  lemma QuotientNegated(c: real, q: real)
    requires q > 0.0
    ensures (-c) / q == -(c / q)
  {
    var x := c / q;
    assert c == x * q && -c == (-x) * q;
  }
}
