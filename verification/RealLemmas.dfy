/** Sums of reals, and facts of real arithmetic with products, each proved once. */
module RealLemmas {

  // ---------------------------------------------------------------- sums

  function SumOf(s: seq<real>): real {
    if s == [] then 0.0 else s[0] + SumOf(s[1..])
  }

  /** Sum of the first `n` entries, as a running sum builds it. */
  function SumTo(s: seq<real>, n: nat): real
    requires n <= |s|
  {
    if n == 0 then 0.0 else SumTo(s, n - 1) + s[n - 1]
  }

  lemma {:induction false} SumOfConcat(a: seq<real>, b: seq<real>)
    ensures SumOf(a + b) == SumOf(a) + SumOf(b)
  {
    if a == [] {
      assert a + b == b;
    } else {
      assert (a + b)[1..] == a[1..] + b;
      SumOfConcat(a[1..], b);
    }
  }

  /** Both sums are one. */
  lemma {:induction false} SumToIsSumOf(s: seq<real>, n: nat)
    requires n <= |s|
    ensures SumTo(s, n) == SumOf(s[..n])
  {
    if n > 0 {
      SumToIsSumOf(s, n - 1);
      assert s[..n] == s[..n - 1] + [s[n - 1]];
      SumOfConcat(s[..n - 1], [s[n - 1]]);
      assert [s[n - 1]][1..] == [];
    }
  }

  // ---------------------------------------------------------------- products

  function Times(a: real, b: real): real { a * b }

  /** A weighted sum within bounds stays within them with one more term. */
  lemma AddTerm(s: real, w: real, v: real, lo: real, hi: real)
    requires 0.0 <= w && lo <= v <= hi
    ensures Times(s + w, lo) <= Times(s, lo) + Times(w, v)
    ensures Times(s, hi) + Times(w, v) <= Times(s + w, hi)
  {
    MulMono(lo, v, w);
    MulMono(v, hi, w);
  }

  lemma MulMono(a: real, b: real, k: real)
    requires a <= b && 0.0 <= k
    ensures a * k <= b * k
  {
  }

  lemma MulNonneg(a: real, b: real)
    requires 0.0 <= a && 0.0 <= b
    ensures 0.0 <= a * b
  {
  }

  lemma MulPos(a: real, b: real)
    requires 0.0 < a && 0.0 < b
    ensures 0.0 < a * b
  {
  }

  /** a / b is the one number whose product with b is a. */
  lemma DivIs(a: real, b: real, q: real)
    requires b != 0.0 && q * b == a
    ensures a / b == q
  {
  }

  lemma DivMul(a: real, b: real)
    requires b != 0.0
    ensures a / b * b == a
  {
  }

  lemma MulStrict(a: real, b: real, k: real)
    requires a < b && 0.0 < k
    ensures a * k < b * k
  {
  }

  /** Comparing a quotient with a number. */
  lemma DivAtMost(a: real, b: real, c: real)
    requires 0.0 < b
    ensures a / b <= c <==> a <= c * b
    ensures a / b >= c <==> a >= c * b
  {
    var q := a / b;
    DivMul(a, b);
    assert q * b == a;
    CancelFactor(q, c, b);
  }

  lemma CancelFactor(a: real, b: real, k: real)
    requires 0.0 < k
    ensures a <= b <==> a * k <= b * k
    ensures a >= b <==> a * k >= b * k
  {
    if a < b {
      MulStrict(a, b, k);
    } else if b < a {
      MulStrict(b, a, k);
    }
  }

  /** Quotients by one number add up. */
  lemma DivAdds(s: real, t: real, p: real)
    requires 0.0 < p
    ensures (s + t) / p == s / p + t / p
  {
    var a, b := s / p, t / p;
    DivMul(s, p);
    DivMul(t, p);
    assert (a + b) * p == a * p + b * p;
    DivIs(s + t, p, a + b);
  }

  lemma DivNonneg(a: real, b: real)
    requires 0.0 <= a && 0.0 < b
    ensures 0.0 <= a / b
  {
    DivAtMost(a, b, 0.0);
  }
}
