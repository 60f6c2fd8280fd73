/**
 * Stride arithmetic without multiplication or division: the chunk count
 * `ceil(n / d)` and the multiples `k * d` are defined by repeated
 * subtraction and addition, and each is tied to the operator it stands for
 * by one lemma.
 */
module Arith {

  /** `ceil(n / d)`: the number of strides of length `d` that reach past `n`. */
  function CeilDiv(n: nat, d: nat): nat
    requires d >= 1
    decreases n
  {
    if n == 0 then 0 else 1 + CeilDiv(if n > d then n - d else 0, d)
  }

  /** `k * d`: the start of stride number `k`. */
  function Multiple(k: nat, d: nat): nat
  {
    if k == 0 then 0 else Multiple(k - 1, d) + d
  }

  lemma {:induction false} MultipleIsProduct(k: nat, d: nat)
    ensures Multiple(k, d) == k * d
  {
    if k > 0 {
      MultipleIsProduct(k - 1, d);
      assert k * d == (k - 1) * d + d;
    }
  }

  lemma MulMono(a: int, b: int, s: int)
    requires a <= b && s >= 0
    ensures a * s <= b * s
  {
  }

  lemma DivBounds(j: int, s: int)
    requires s >= 1
    ensures (j / s) * s <= j < (j / s) * s + s
  {
  }

  lemma MulLtCancel(x: int, y: int, d: int)
    requires d >= 1 && x * d < y * d
    ensures x < y
  {
    if x >= y {
      MulMono(y, x, d);
    }
  }

  /** The quotient is the one multiple that brackets the dividend. */
  lemma DivUnique(a: int, d: int, q: int)
    requires d >= 1 && q * d <= a < q * d + d
    ensures a / d == q
  {
    var p := a / d;
    DivBounds(a, d);
    assert (q + 1) * d == q * d + d;
    assert (p + 1) * d == p * d + d;
    MulLtCancel(p, q + 1, d);
    MulLtCancel(q, p + 1, d);
  }

  /** The stride count is the rounded-up quotient `(n + d - 1) / d`. */
  lemma {:induction false} CeilDivIsQuotient(n: nat, d: nat)
    requires d >= 1
    ensures CeilDiv(n, d) == (n + d - 1) / d
    decreases n
  {
    if n == 0 {
      DivUnique(d - 1, d, 0);
    } else if n > d {
      CeilDivIsQuotient(n - d, d);
      var q := CeilDiv(n - d, d);
      DivBounds(n - d + d - 1, d);
      assert (q + 1) * d == q * d + d;
      DivUnique(n + d - 1, d, q + 1);
    } else {
      assert CeilDiv(0, d) == 0;
      DivUnique(n + d - 1, d, 1);
    }
  }

  /** With stride 1 there is one stride per unit. */
  lemma {:induction false} CeilDivOne(n: nat)
    ensures CeilDiv(n, 1) == n
  {
    if n > 0 {
      CeilDivOne(n - 1);
    }
  }

  lemma {:induction false} MultipleOne(k: nat)
    ensures Multiple(k, 1) == k
  {
    if k > 0 {
      MultipleOne(k - 1);
    }
  }

  /** The last of `CeilDiv(n, d)` strides starts before `n` and reaches it. */
  lemma {:induction false} LastStride(n: nat, d: nat)
    requires d >= 1 && n > 0
    ensures CeilDiv(n, d) >= 1
    ensures Multiple(CeilDiv(n, d) - 1, d) < n <= Multiple(CeilDiv(n, d) - 1, d) + d
    decreases n
  {
    if n > d {
      LastStride(n - d, d);
    }
  }

  /** Index of the stride holding position `j`: `j / d`. */
  function StrideOf(j: nat, d: nat): nat
    requires d >= 1
    decreases j
  {
    if j < d then 0 else 1 + StrideOf(j - d, d)
  }

  /** Position `j < n` lies in stride `StrideOf(j, d)`, which is one of the `CeilDiv(n, d)` strides. */
  lemma {:induction false} StrideOfBounds(n: nat, d: nat, j: nat)
    requires d >= 1 && j < n
    ensures StrideOf(j, d) < CeilDiv(n, d)
    ensures Multiple(StrideOf(j, d), d) <= j < Multiple(StrideOf(j, d), d) + d
    decreases j
  {
    if j >= d {
      StrideOfBounds(n - d, d, j - d);
    }
  }

  lemma {:induction false} StrideOfIsQuotient(j: nat, d: nat)
    requires d >= 1
    ensures StrideOf(j, d) == j / d
  {
    StrideOfBounds(j + 1, d, j);
    MultipleIsProduct(StrideOf(j, d), d);
    DivUnique(j, d, StrideOf(j, d));
  }

  /** Each of the `CeilDiv(n, d)` strides starts before `n`. */
  lemma {:induction false} MultipleBelow(n: nat, d: nat, k: nat)
    requires d >= 1 && k < CeilDiv(n, d)
    ensures Multiple(k, d) < n
    decreases n
  {
    if k > 0 && n > d {
      MultipleBelow(n - d, d, k - 1);
    }
  }
}
