/**
  Shared vocabulary of the generators: optional values and results, the two
  vector types, Unity's clamped interpolation and float-to-int conversions, the
  two forms of `Random.Range`, and a square-root function supplied by the caller.
 */
module Common {

  datatype Option<T> = None | Some(value: T)

  datatype Vec2 = Vec2(x: real, y: real)

  datatype Vec3 = Vec3(x: real, y: real, z: real)

  /** Grid coordinate (`Vector2Int`). */
  datatype Int2 = Int2(x: int, y: int)

  function Abs(r: real): (a: real)
    ensures a >= 0.0 && (a == r || a == -r)
  {
    if r < 0.0 then -r else r
  }

  function AbsInt(n: int): (a: nat)
    ensures a == n || a == -n
  {
    if n < 0 then -n else n
  }

  function MinInt(a: int, b: int): (m: int)
    ensures m <= a && m <= b && (m == a || m == b)
  {
    if a <= b then a else b
  }

  function MaxReal(a: real, b: real): (m: real)
    ensures m >= a && m >= b && (m == a || m == b)
  {
    if a >= b then a else b
  }

  /** `Mathf.Clamp` on ints: below `min` gives `min`, else above `max` gives `max`. */
  function ClampInt(value: int, min: int, max: int): (c: int)
    ensures min <= max ==> min <= c <= max
    ensures min <= value <= max ==> c == value
  {
    if value < min then min else if value > max then max else value
  }

  /** `Mathf.Clamp01`. */
  function Clamp01(t: real): (c: real)
    ensures 0.0 <= c <= 1.0
    ensures 0.0 <= t <= 1.0 ==> c == t
    ensures t < 0.0 ==> c == 0.0
    ensures t > 1.0 ==> c == 1.0
  {
    if t < 0.0 then 0.0 else if t > 1.0 then 1.0 else t
  }

  /** `Mathf.Lerp`, `Color.Lerp`: the parameter is clamped to [0, 1] first. */
  function Lerp(a: real, b: real, t: real): real
  {
    a + (b - a) * Clamp01(t)
  }

  /** A clamped interpolation never leaves the interval spanned by its end points. */
  lemma LerpBetween(a: real, b: real, t: real)
    ensures a <= b ==> a <= Lerp(a, b, t) <= b
    ensures b <= a ==> b <= Lerp(a, b, t) <= a
    ensures t <= 0.0 ==> Lerp(a, b, t) == a
    ensures t >= 1.0 ==> Lerp(a, b, t) == b
  {
    var c := Clamp01(t);
    if a <= b {
      MulNonneg(b - a, c);
      MulNonneg(b - a, 1.0 - c);
    } else {
      MulNonneg(a - b, c);
      MulNonneg(a - b, 1.0 - c);
    }
  }

  lemma MulNonneg(x: real, y: real)
    requires x >= 0.0 && y >= 0.0
    ensures x * y >= 0.0
  {
  }

  lemma MulPositive(x: real, y: real)
    requires x > 0.0 && y > 0.0
    ensures x * y > 0.0
  {
  }

  lemma SquareMonotone(a: real, b: real)
    requires 0.0 <= a
    ensures a <= b ==> a * a <= b * b
    ensures a < b ==> a * a < b * b
  {
    if a <= b {
      assert b * b - a * a == (b - a) * (b + a);
      if a < b {
        MulPositive(b - a, b + a);
      }
    }
  }

  /** Quotient and remainder are determined by `n == q * k + r` with `0 <= r < k`. */
  lemma DivModUnique(n: int, k: int, q: int, r: int)
    requires k > 0 && 0 <= r < k && n == q * k + r
    ensures n / k == q && n % k == r
  {
    var q', r' := n / k, n % k;
    assert (q - q') * k == r' - r;
    if q > q' {
      MulAtLeast(q - q', k);
    } else if q < q' {
      MulAtLeast(q' - q, k);
    }
  }

  lemma MulAtLeast(a: int, k: int)
    requires a >= 1 && k > 0
    ensures a * k >= k
  {
    assert a * k == (a - 1) * k + k;
    assert (a - 1) * k >= 0;
  }

  /** C#'s `(int)` conversion of a float: truncation toward zero. */
  function TruncToInt(r: real): (n: int)
    ensures r >= 0.0 ==> n == r.Floor
    ensures AbsInt(n) as real <= Abs(r)
  {
    if r >= 0.0 then r.Floor else -((-r).Floor)
  }

  /** `Mathf.CeilToInt`. */
  function CeilToInt(r: real): (n: int)
    ensures r <= n as real < r + 1.0
  {
    -((-r).Floor)
  }

  /** `Mathf.FloorToInt`. */
  function FloorToInt(r: real): (n: int)
    ensures n as real <= r < n as real + 1.0
  {
    r.Floor
  }

  /** C#'s integer `/`, which truncates toward zero. */
  function TruncDiv(a: int, b: int): (q: int)
    requires b > 0
    ensures a >= 0 ==> q == a / b
    ensures a <= 0 ==> q == -((-a) / b)
  {
    if a >= 0 then a / b else -((-a) / b)
  }

  /** `Random.Range(min, max)` on floats, for a unit draw `u` (clamped into [0, 1]). */
  function RangeFloat(min: real, max: real, u: real): (r: real)
    ensures min <= max ==> min <= r <= max
    ensures max <= min ==> max <= r <= min
  {
    LerpBetween(min, max, u);
    Lerp(min, max, u)
  }

  /** `Random.Range(0, n)` on ints: in [0, n) when n > 0, and 0 (its lower bound) otherwise. */
  function RangeInt(n: int, draw: nat): (r: nat)
    ensures n > 0 ==> r < n
    ensures n <= 0 ==> r == 0
  {
    if n > 0 then draw % n else 0
  }

  function Dist2Sq(a: Vec2, b: Vec2): (d: real)
    ensures d >= 0.0
  {
    (a.x - b.x) * (a.x - b.x) + (a.y - b.y) * (a.y - b.y)
  }

  function Dist3Sq(a: Vec3, b: Vec3): (d: real)
    ensures d >= 0.0
  {
    (a.x - b.x) * (a.x - b.x) + (a.y - b.y) * (a.y - b.y) + (a.z - b.z) * (a.z - b.z)
  }

  /**
    The caller supplies `Mathf.Sqrt`; all the model relies on is that it is the
    non-negative square root on non-negative arguments.
   */
  ghost predicate IsSqrt(sqrt: real -> real)
  {
    forall q: real {:trigger sqrt(q)} :: q >= 0.0 ==> sqrt(q) >= 0.0 && sqrt(q) * sqrt(q) == q
  }

  /** `Vector2.Distance(a, b) < r` is the same as comparing squared lengths. */
  lemma SqrtLess(sqrt: real -> real, q: real, r: real)
    requires IsSqrt(sqrt)
    requires q >= 0.0
    ensures sqrt(q) < r <==> r > 0.0 && q < r * r
  {
    var s := sqrt(q);
    assert s >= 0.0 && s * s == q;
    if r >= 0.0 {
      SquareMonotone(s, r);
      SquareMonotone(r, s);
    }
  }

  /** `Vector2.Distance(a, b) <= r` is the same as comparing squared lengths. */
  lemma SqrtAtMost(sqrt: real -> real, q: real, r: real)
    requires IsSqrt(sqrt)
    requires q >= 0.0
    ensures sqrt(q) <= r <==> r >= 0.0 && q <= r * r
  {
    var s := sqrt(q);
    assert s >= 0.0 && s * s == q;
    if r >= 0.0 {
      SquareMonotone(s, r);
      SquareMonotone(r, s);
    }
  }

  /** Ordering by `Distance` is ordering by squared distance: the square root is strictly increasing. */
  lemma SqrtOrder(sqrt: real -> real, a: real, b: real)
    requires IsSqrt(sqrt)
    requires a >= 0.0 && b >= 0.0
    ensures sqrt(a) < sqrt(b) <==> a < b
  {
    SqrtLess(sqrt, a, sqrt(b));
    assert sqrt(b) * sqrt(b) == b;
    if a < b {
      assert sqrt(b) != 0.0;
    }
  }

  /** The trip count of `for (int i = 0; i < n; i++)`. */
  function Iterations(n: int): (count: nat)
    ensures n >= 0 ==> count == n
    ensures n < 0 ==> count == 0
  {
    if n < 0 then 0 else n
  }

  /** Whether `Vector2.Distance(a, b) < r`, without the square root. */
  predicate Closer2(a: Vec2, b: Vec2, r: real)
  {
    r > 0.0 && Dist2Sq(a, b) < r * r
  }

  /** Whether `Vector3.Distance(a, b) < r`, without the square root. */
  predicate Closer3(a: Vec3, b: Vec3, r: real)
  {
    r > 0.0 && Dist3Sq(a, b) < r * r
  }
}
