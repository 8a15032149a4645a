/** Small shared vocabulary: failure datatypes and extrema. */
module Common {

  datatype Option<+T> = None | Some(value: T)

  /** The source's exceptions, by the kind of failure a caller can tell apart. */
  datatype Error =
    | OutOfRange
    | InvalidArgument
    | SizeMismatch
    | NotFound
    | WrongMode

  datatype Result<+T> = Ok(value: T) | Err(error: Error)

  /** numeric_limits<double>::epsilon(), 2 to the power -52. */
  const EPSILON: real := 1.0 / 4503599627370496.0

  function TwoTo(n: nat): nat { if n == 0 then 1 else 2 * TwoTo(n - 1) }

  /** Double precision has 52 explicit bits. */
  lemma EpsilonExactly()
    ensures EPSILON * TwoTo(52) as real == 1.0
  {
    assert TwoTo(13) == 8192;
    assert TwoTo(26) == 67108864 by { assert TwoTo(26) == 8192 * 8192; }
    assert TwoTo(39) == 549755813888 by { assert TwoTo(30) == 1073741824; }
    assert TwoTo(45) == 35184372088832;
    assert TwoTo(52) == 4503599627370496;
  }

  /** A double that may be NaN; arithmetic passes NaN on. */
  datatype Num = NaN | Val(v: real)

  function Add(a: Num, b: Num): Num { if a.Val? && b.Val? then Val(a.v + b.v) else NaN }

  function Sub(a: Num, b: Num): Num { if a.Val? && b.Val? then Val(a.v - b.v) else NaN }

  function Max(a: int, b: int): int { if a < b then b else a }

  function Min(a: int, b: int): int { if b < a then b else a }

  function MaxReal(a: real, b: real): real { if a < b then b else a }

  function MinReal(a: real, b: real): real { if b < a then b else a }

  function Abs(x: real): real { if x < 0.0 then -x else x }

  /** Division with remainder has one answer. */
  lemma RemainderOf(n: int, h: int, q: int, r: int)
    requires 0 <= r < h && n == q * h + r
    ensures n % h == r && n / h == q
  {
    var e := n / h - q;
    assert e * h == r - n % h;
    MulBound(e, h);
  }

  lemma MulBound(e: int, h: int)
    requires 0 < h
    ensures 1 <= e ==> h <= e * h
    ensures e <= -1 ==> e * h <= -h
  {
  }
}
