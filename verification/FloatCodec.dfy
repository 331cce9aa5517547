/** Quantisation of real values to fixed-width integers, and angle normalisation. Floating-point numbers are
    modelled as exact reals, and machine integers as unbounded ones. */
module FloatCodecs {
  datatype FloatCodec = FloatCodec(bits: nat, min: real, max: real)

  const EPSILON: real := 0.00000001

  predicate WellFormed(c: FloatCodec) {
    c.bits > 0 && c.min < c.max
  }

  /** 1 << n */
  function Pow2(n: nat): (p: nat)
    ensures p >= 1
  {
    if n == 0 then 1 else 2 * Pow2(n - 1)
  }

  function Clamp(x: real, lo: real, hi: real): real {
    if x < lo then lo else if x > hi then hi else x
  }

  function ClampInt(y: int, lo: int, hi: int): int {
    if y < lo then lo else if y > hi then hi else y
  }

  /** Rounds to the nearest integer, halves away from zero. */
  function Round(x: real): int {
    if x >= 0.0 then (x + 0.5).Floor else -((-x + 0.5).Floor)
  }

  function YMax(c: FloatCodec): int
    requires c.bits > 0
  {
    Pow2(c.bits - 1) - 1
  }

  function YMin(c: FloatCodec): int
    requires c.bits > 0
  {
    0 - Pow2(c.bits - 1)
  }

  function UMax(c: FloatCodec): nat {
    Pow2(c.bits) - 1
  }

  /** The common formula of all four conversions: u of [0, r], taken to [0, n]. */
  function Scale(n: real, u: real, r: real): real
    requires r > 0.0
  {
    (n * u) / r
  }

  /** The number of steps between the smallest and the largest signed code. */
  function SignedRange(c: FloatCodec): (n: real)
    requires c.bits > 0
    ensures n > 0.0 && n == (YMax(c) - YMin(c)) as real
  {
    YMax(c) as real - YMin(c) as real
  }

  function UnsignedRange(c: FloatCodec): (n: real)
    requires c.bits > 0
    ensures n >= 1.0
  {
    assert Pow2(c.bits) == 2 * Pow2(c.bits - 1);
    UMax(c) as real
  }

  function FromInt(c: FloatCodec, y: int): real
    requires WellFormed(c)
  {
    c.min + Scale(c.max - c.min, (y - YMin(c)) as real, SignedRange(c))
  }

  function ToInt(c: FloatCodec, x: real): int
    requires WellFormed(c)
  {
    var clamped := Clamp(x, c.min, c.max);
    var y := Round(YMin(c) as real + Scale(SignedRange(c), clamped - c.min, c.max - c.min) + EPSILON);
    ClampInt(y, YMin(c), YMax(c))
  }

  function FromUint(c: FloatCodec, y: int): real
    requires WellFormed(c)
  {
    c.min + Scale(c.max - c.min, y as real, UnsignedRange(c))
  }

  function ToUint(c: FloatCodec, x: real): int
    requires WellFormed(c)
  {
    var clamped := Clamp(x, c.min, c.max);
    ClampInt(Round(Scale(UnsignedRange(c), clamped - c.min, c.max - c.min)), 0, UMax(c))
  }

  // ---- Scaling ----

  lemma ScaleInverse(n: real, u: real, r: real)
    requires n > 0.0 && r > 0.0
    ensures Scale(r, Scale(n, u, r), n) == u
  {
    var s := Scale(n, u, r);
    assert s * r == n * u;
    assert r * s == n * u;
    assert (n * u) / n == u;
  }

  lemma ScaleMonotone(n: real, u: real, v: real, r: real)
    requires n > 0.0 && r > 0.0 && u <= v
    ensures Scale(n, u, r) <= Scale(n, v, r)
  {
    assert n * u <= n * v;
    DivideMonotone(n * u, n * v, r);
  }

  lemma DivideMonotone(a: real, b: real, r: real)
    requires r > 0.0 && a <= b
    ensures a / r <= b / r
  {
  }

  lemma ScaleEnds(n: real, r: real)
    requires r > 0.0
    ensures Scale(n, 0.0, r) == 0.0 && Scale(n, r, r) == n
  {
  }

  lemma ScaleInRange(n: real, u: real, r: real)
    requires n > 0.0 && r > 0.0 && 0.0 <= u <= r
    ensures 0.0 <= Scale(n, u, r) <= n
  {
    ScaleEnds(n, r);
    ScaleMonotone(n, 0.0, u, r);
    ScaleMonotone(n, u, r, r);
  }

  lemma ScaleDifference(n: real, u: real, v: real, r: real)
    requires r > 0.0
    ensures Scale(n, u, r) - Scale(n, v, r) == Scale(n, u - v, r)
  {
    assert n * u - n * v == n * (u - v);
  }

  // ---- Rounding ----

  lemma RoundError(x: real)
    ensures -0.5 <= Round(x) as real - x <= 0.5
  {
  }

  lemma RoundMonotone(x: real, y: real)
    requires x <= y
    ensures Round(x) <= Round(y)
  {
  }

  lemma RoundNear(k: int, d: real)
    requires -0.5 < d < 0.5
    ensures Round(k as real + d) == k
  {
  }

  /** Clamping after rounding never changes anything. */
  lemma RoundStaysInRange(lo: int, hi: int, s: real, d: real)
    requires 0.0 <= s <= (hi - lo) as real && 0.0 <= d < 0.5
    ensures ClampInt(Round(lo as real + s + d), lo, hi) == Round(lo as real + s + d)
  {
    RoundNear(lo, d);
    RoundNear(hi, d);
    RoundMonotone(lo as real + d, lo as real + s + d);
    RoundMonotone(lo as real + s + d, hi as real + d);
  }

  // ---- Signed codes ----

  /** The value before rounding, counted from the smallest code. */
  function SignedPosition(c: FloatCodec, x: real): real
    requires WellFormed(c)
  {
    Scale(SignedRange(c), Clamp(x, c.min, c.max) - c.min, c.max - c.min)
  }

  lemma SignedInRange(c: FloatCodec, x: real)
    requires WellFormed(c)
    ensures 0.0 <= SignedPosition(c, x) <= SignedRange(c)
    ensures ToInt(c, x) == Round(YMin(c) as real + SignedPosition(c, x) + EPSILON)
  {
    ScaleInRange(SignedRange(c), Clamp(x, c.min, c.max) - c.min, c.max - c.min);
    RoundStaysInRange(YMin(c), YMax(c), SignedPosition(c, x), EPSILON);
  }

  /** Encoding a decoded code gives the code back. */
  lemma SignedCodeRoundTrip(c: FloatCodec, y: int)
    requires WellFormed(c) && YMin(c) <= y <= YMax(c)
    ensures c.min <= FromInt(c, y) <= c.max
    ensures ToInt(c, FromInt(c, y)) == y
  {
    var n, k, r := SignedRange(c), (y - YMin(c)) as real, c.max - c.min;
    ScaleInRange(r, k, n);
    ScaleInverse(r, k, n);
    var x := FromInt(c, y);
    assert Clamp(x, c.min, c.max) - c.min == Scale(r, k, n);
    SignedInRange(c, x);
    RoundNear(y, EPSILON);
  }

  lemma SignedMonotone(c: FloatCodec, x: real, z: real)
    requires WellFormed(c) && x <= z
    ensures ToInt(c, x) <= ToInt(c, z)
  {
    SignedInRange(c, x);
    SignedInRange(c, z);
    ScaleMonotone(SignedRange(c), Clamp(x, c.min, c.max) - c.min, Clamp(z, c.min, c.max) - c.min, c.max - c.min);
    RoundMonotone(YMin(c) as real + SignedPosition(c, x) + EPSILON, YMin(c) as real + SignedPosition(c, z) + EPSILON);
  }

  /** Width of one quantisation step. */
  function SignedStep(c: FloatCodec): (step: real)
    requires WellFormed(c)
    ensures Pow2(c.bits) > 1 && step == (c.max - c.min) / (Pow2(c.bits) - 1) as real
  {
    assert Pow2(c.bits) == 2 * Pow2(c.bits - 1);
    (c.max - c.min) / SignedRange(c)
  }

  function Abs(x: real): real {
    if x < 0.0 then -x else x
  }

  lemma ErrorInSteps(r: real, n: real, e: real, bound: real)
    requires r > 0.0 && n > 0.0 && -bound <= e <= bound
    ensures Abs(Scale(r, e, n)) <= bound * (r / n)
  {
    assert Scale(r, e, n) == e * (r / n);
    assert r / n > 0.0;
    assert e * (r / n) <= bound * (r / n);
    assert -bound * (r / n) <= e * (r / n);
  }

  /** Undoing the scaling of a position that was moved by at most `bound` steps. */
  lemma MovedPosition(r: real, n: real, u: real, k: real, bound: real)
    requires r > 0.0 && n > 0.0 && -bound <= k - Scale(n, u, r) <= bound
    ensures Abs(Scale(r, k, n) - u) <= bound * (r / n)
  {
    var s := Scale(n, u, r);
    ScaleInverse(n, u, r);
    ScaleDifference(r, k, s, n);
    ErrorInSteps(r, n, k - s, bound);
  }

  /** Decoding an encoded value misses the clamped value by at most (1/2 + 1e-8) steps. */
  lemma SignedErrorBound(c: FloatCodec, x: real)
    requires WellFormed(c)
    ensures Abs(FromInt(c, ToInt(c, x)) - Clamp(x, c.min, c.max)) <= (0.5 + 0.00000001) * SignedStep(c)
  {
    var u, y := Clamp(x, c.min, c.max) - c.min, ToInt(c, x);
    SignedInRange(c, x);
    RoundError(YMin(c) as real + SignedPosition(c, x) + EPSILON);
    MovedPosition(c.max - c.min, SignedRange(c), u, (y - YMin(c)) as real, 0.5 + EPSILON);
  }

  /** On a symmetric range zero encodes to zero, which is what the added epsilon is for: without it the code
      would be -1. */
  lemma ZeroEncodesToZero(c: FloatCodec)
    requires WellFormed(c) && c.min == -c.max
    ensures ToInt(c, 0.0) == 0
    ensures Round(YMin(c) as real + SignedPosition(c, 0.0)) == -1
  {
    var n, r := SignedRange(c), c.max - c.min;
    SignedInRange(c, 0.0);
    assert Clamp(0.0, c.min, c.max) - c.min == r / 2.0;
    HalfScale(n, r);
    assert YMin(c) as real + n / 2.0 == -0.5;
  }

  lemma HalfScale(n: real, r: real)
    requires r > 0.0
    ensures Scale(n, r / 2.0, r) == n / 2.0
  {
    assert n * (r / 2.0) == (n / 2.0) * r;
  }

  // ---- Unsigned codes ----

  function UnsignedPosition(c: FloatCodec, x: real): real
    requires WellFormed(c)
  {
    Scale(UnsignedRange(c), Clamp(x, c.min, c.max) - c.min, c.max - c.min)
  }

  lemma UnsignedInRange(c: FloatCodec, x: real)
    requires WellFormed(c)
    ensures 0.0 <= UnsignedPosition(c, x) <= UnsignedRange(c)
    ensures ToUint(c, x) == Round(UnsignedPosition(c, x))
  {
    ScaleInRange(UnsignedRange(c), Clamp(x, c.min, c.max) - c.min, c.max - c.min);
    RoundStaysInRange(0, UMax(c), UnsignedPosition(c, x), 0.0);
  }

  lemma UnsignedCodeRoundTrip(c: FloatCodec, y: int)
    requires WellFormed(c) && 0 <= y <= UMax(c)
    ensures c.min <= FromUint(c, y) <= c.max
    ensures ToUint(c, FromUint(c, y)) == y
  {
    var n, k, r := UnsignedRange(c), y as real, c.max - c.min;
    ScaleInRange(r, k, n);
    ScaleInverse(r, k, n);
    var x := FromUint(c, y);
    assert Clamp(x, c.min, c.max) - c.min == Scale(r, k, n);
    UnsignedInRange(c, x);
    RoundNear(y, 0.0);
  }

  lemma UnsignedMonotone(c: FloatCodec, x: real, z: real)
    requires WellFormed(c) && x <= z
    ensures ToUint(c, x) <= ToUint(c, z)
  {
    UnsignedInRange(c, x);
    UnsignedInRange(c, z);
    ScaleMonotone(UnsignedRange(c), Clamp(x, c.min, c.max) - c.min, Clamp(z, c.min, c.max) - c.min, c.max - c.min);
    RoundMonotone(UnsignedPosition(c, x), UnsignedPosition(c, z));
  }

  function UnsignedStep(c: FloatCodec): (step: real)
    requires WellFormed(c)
    ensures Pow2(c.bits) > 1 && step == (c.max - c.min) / (Pow2(c.bits) - 1) as real
  {
    assert Pow2(c.bits) == 2 * Pow2(c.bits - 1);
    (c.max - c.min) / UnsignedRange(c)
  }

  lemma UnsignedErrorBound(c: FloatCodec, x: real)
    requires WellFormed(c)
    ensures Abs(FromUint(c, ToUint(c, x)) - Clamp(x, c.min, c.max)) <= 0.5 * UnsignedStep(c)
  {
    UnsignedInRange(c, x);
    RoundError(UnsignedPosition(c, x));
    MovedPosition(c.max - c.min, UnsignedRange(c), Clamp(x, c.min, c.max) - c.min, ToUint(c, x) as real, 0.5);
  }

  // ---- Angles ----

  /** The value of the single-precision constant. */
  const PI: real := 13176795.0 / 4194304.0

  function Turned(angle: real, turns: int): real {
    angle + turns as real * (2.0 * PI)
  }

  /** Two angles that differ by whole turns. */
  ghost predicate SameAngle(a: real, b: real) {
    exists turns: int :: b == Turned(a, turns)
  }

  method NormalizeAngle(angle: real) returns (r: real)
    ensures -PI <= r < PI
    ensures SameAngle(angle, r)
  {
    r := angle;
    ghost var turns := 0;
    while r < -PI
      invariant r == Turned(angle, turns) && (angle < -PI ==> r < PI)
      invariant angle >= -PI ==> r == angle
      decreases (-r).Floor + 4
    {
      r := r + 2.0 * PI;
      turns := turns + 1;
    }
    while r >= PI
      invariant r == Turned(angle, turns) && r >= -PI
      decreases r.Floor + 4
    {
      r := r - 2.0 * PI;
      turns := turns - 1;
    }
  }

  lemma TurnsApart(d: int)
    ensures d != 0 ==> Abs(d as real * (2.0 * PI)) >= 2.0 * PI
  {
  }

  /** There is only one angle in [-PI, PI) to normalise to. */
  lemma NormalFormIsUnique(a: real, r: real, s: real)
    requires SameAngle(a, r) && SameAngle(a, s) && -PI <= r < PI && -PI <= s < PI
    ensures r == s
  {
    var m: int :| r == Turned(a, m);
    var n: int :| s == Turned(a, n);
    TurnsApart(m - n);
  }
}
