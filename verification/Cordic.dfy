/** The integer vectoring loop of cordic() in sqrt.c: shift-add rotations drive y towards
    zero while x grows to the magnitude of (x, y) times a fixed gain. */
module Cordic {
  import opened Powers
  import opened GrayCode

  const EXTRA_PRECISION: nat := 6

  /** a >> i, arithmetic: rounds towards minus infinity. */
  function Shr(a: int, i: nat): int {
    a / Pow2(i)
  }

  datatype Vec = Vec(x: int, y: int)

  /** One iteration of the loop. */
  function VectorStep(v: Vec, i: nat): Vec {
    if v.y >= 0 then Vec(v.x + Shr(v.y, i), v.y - Shr(v.x, i))
    else Vec(v.x - Shr(v.y, i), v.y + Shr(v.x, i))
  }

  /** The vector after iterations 0 .. k - 1. */
  function Iterate(v: Vec, k: nat): Vec {
    if k == 0 then v else VectorStep(Iterate(v, k - 1), k - 1)
  }

  function Norm(v: Vec): int {
    v.x * v.x + v.y * v.y
  }

  // ----- the imperative code ----------------------------------------------

  /** The three exclusive-ors exchange two words of any width. */
  method XorSwap(x: Bits, y: Bits) returns (a: Bits, b: Bits)
    requires |x| == |y|
    ensures a == y && b == x
  {
    a, b := x, y;
    a := Xor(a, b);
    b := Xor(b, a);
    a := Xor(a, b);
  }

  /** The vector the loop starts from: larger coordinate first, scaled up. */
  function Prepared(x: int, y: int): Vec {
    var s := Pow2(EXTRA_PRECISION);
    if x < y then Vec(y * s, x * s) else Vec(x * s, y * s)
  }

  /** cordic() up to the final floating-point scaling. */
  method Vectoring(x0: int, y0: int, n: nat) returns (v: Vec)
    ensures v == Iterate(Prepared(x0, y0), n + 1)
  {
    var x, y := x0, y0;
    if x < y {
      x, y := y, x;
    }
    x, y := x * Pow2(EXTRA_PRECISION), y * Pow2(EXTRA_PRECISION);
    for i := 0 to n + 1
      invariant Vec(x, y) == Iterate(Prepared(x0, y0), i)
    {
      var xn, yn := x, y;
      if y >= 0 {
        xn := x + Shr(y, i);
        yn := y - Shr(x, i);
      } else {
        var yTmp := Shr(y, i);
        xn := x - yTmp;
        yn := y + Shr(x, i);
      }
      x, y := xn, yn;
    }
    v := Vec(x, y);
  }

  // ----- convergence -------------------------------------------------------

  /** What a truncating shift loses. */
  lemma ShrBounds(a: int, i: nat)
    ensures Pow2(i) * Shr(a, i) <= a < Pow2(i) * Shr(a, i) + Pow2(i)
    ensures a >= 0 ==> 0 <= Shr(a, i) <= a
    ensures a < 0 ==> a <= Shr(a, i) < 0
  {
    Floor(a, Pow2(i), Shr(a, i));
  }

  lemma Floor(a: int, p: nat, q: int)
    requires p >= 1 && q == a / p
    ensures p * q <= a < p * q + p
    ensures a >= 0 ==> 0 <= q <= a
    ensures a < 0 ==> a <= q < 0
  {
    assert a == p * q + a % p;
    MulBounds(p, q);
  }

  /** |y| 2^(k-1) <= x + (k-1) 2^(k-1), the bound that holds before iteration k >= 1. */
  predicate Converging(v: Vec, k: nat) {
    && v.x >= 0
    && (k == 0 ==> 0 <= v.y <= v.x)
    && (k > 0 ==> Abs(v.y) * Pow2(k - 1) <= v.x + (k - 1) * Pow2(k - 1))
  }

  lemma StepConverges(v: Vec, k: nat)
    requires Converging(v, k)
    ensures Converging(VectorStep(v, k), k + 1) && v.x <= VectorStep(v, k).x
  {
    hide Shr;
    ShrBounds(v.x, k);
    ShrBounds(v.y, k);
    if k > 0 {
      StepShrinks(Abs(v.y), Shr(v.x, k), v.x, k, Pow2(k - 1), Pow2(k), Abs(VectorStep(v, k).y));
    } else {
      assert Pow2(0) == 1;
    }
  }

  /** In either branch the new |y| is the distance between the old one and floor(x / 2^k). */
  lemma StepShrinks(y: int, q: int, x: int, k: int, h: int, p: int, y': int)
    requires k > 0 && h >= 1 && y >= 0 && p == 2 * h && y * h <= x + (k - 1) * h && p * q <= x < p * q + p
    requires y' == Abs(y - q)
    ensures y' * p <= x + k * p
  {
    Distribute(k - 1, 1, p);
    assert y * p == 2 * (y * h) && (k - 1) * p == 2 * ((k - 1) * h);
    if y >= q {
      Distribute(y, -q, p);
    } else {
      Distribute(q, -y, p);
      MulMonotone(0, y, p);
      MulMonotone(0, k, p);
    }
  }

  lemma {:induction false} IterateConverges(v: Vec, k: nat)
    requires 0 <= v.y <= v.x
    ensures Converging(Iterate(v, k), k) && v.x <= Iterate(v, k).x
  {
    if k > 0 {
      IterateConverges(v, k - 1);
      StepConverges(Iterate(v, k - 1), k - 1);
    }
  }

  /** Main convergence bound: after iterations 0 .. n the leftover y is below the
      resolution 2^-n of x plus one unit of rounding per iteration. */
  lemma Converges(a: nat, b: nat, n: nat)
    ensures var v := Iterate(Prepared(a, b), n + 1);
            && Abs(v.y) * Pow2(n) <= v.x + n * Pow2(n)
            && (if a < b then b else a) * Pow2(EXTRA_PRECISION) <= v.x
  {
    PreparedOrdered(a, b);
    IterateConverges(Prepared(a, b), n + 1);
  }

  lemma PreparedOrdered(a: nat, b: nat)
    ensures 0 <= Prepared(a, b).y <= Prepared(a, b).x
    ensures Norm(Prepared(a, b)) == Pow2(2 * EXTRA_PRECISION) * (a * a + b * b)
  {
    var s := Pow2(EXTRA_PRECISION);
    Pow2Add(EXTRA_PRECISION, EXTRA_PRECISION);
    assert Pow2(2 * EXTRA_PRECISION) == s * s;
    assert a <= b ==> a * s <= b * s;
    assert b <= a ==> b * s <= a * s;
    assert (a * s) * (a * s) == s * s * (a * a);
    assert (b * s) * (b * s) == s * s * (b * b);
    assert s * s * (a * a + b * b) == s * s * (a * a) + s * s * (b * b);
  }

  lemma {:induction false} IterateGrows(v: Vec, j: nat, k: nat)
    requires 0 <= v.y <= v.x && j <= k
    ensures Iterate(v, j).x <= Iterate(v, k).x
  {
    if j < k {
      IterateGrows(v, j, k - 1);
      IterateConverges(v, k - 1);
      StepConverges(Iterate(v, k - 1), k - 1);
    }
  }

  // ----- the norm ----------------------------------------------------------

  /** 4^i times what step i does to the squared norm is (4^i + 1) times the old one, up to
      an error linear in x + |y|. */
  lemma StepNorm(v: Vec, i: nat)
    requires v.x >= 0
    ensures var p, w := Pow2(i), VectorStep(v, i);
            Abs(p * p * Norm(w) - (p * p + 1) * Norm(v)) <= p * p * (4 * (v.x + Abs(v.y)) + 2)
  {
    hide Pow2, Shr;
    ShrBounds(v.x, i);
    ShrBounds(v.y, i);
    var w := VectorStep(v, i);
    StepNormError(v.x, v.y, Shr(v.x, i), Shr(v.y, i), Pow2(i), w.x, w.y);
  }

  /** StepNorm for a step (x, y) -> (u, t) whose shifted operands are qx and qy. */
  lemma StepNormError(x: nat, y: int, qx: int, qy: int, p: nat, u: int, t: int)
    requires p >= 1 && p * qx <= x < p * qx + p && p * qy <= y < p * qy + p
    requires if y >= 0 then u == x + qy && t == y - qx else u == x - qy && t == y + qx
    ensures Abs(p * p * (u * u + t * t) - (p * p + 1) * (x * x + y * y)) <= p * p * (4 * (x + Abs(y)) + 2)
  {
    ScaledNorm(p, u, t);
    if y >= 0 {
      Distribute(x, qy, p);
      Distribute(t, qx, p);
      RotateError(x, y, p * u, p * t, p, p * qy - y, x - p * qx);
    } else {
      Distribute(u, qy, p);
      Distribute(y, qx, p);
      MirrorNorm(p, u, t);
      RotateError(x, -y, p * u, p * (-t), p, y - p * qy, x - p * qx) by {
        Distribute(t, -t, p);
        Distribute(y, -y, p);
      }
      assert (-y) * (-y) == y * y;
    }
  }

  lemma MirrorNorm(p: int, u: int, t: int)
    ensures (p * (-t)) * (p * (-t)) == (p * t) * (p * t)
  {
    assert p * (-t) == -(p * t);
  }

  lemma ScaledNorm(p: int, x: int, y: int)
    ensures p * p * (x * x + y * y) == (p * x) * (p * x) + (p * y) * (p * y)
  {
  }

  /** A scaled rotation of (x, y), each coordinate off by at most p. */
  lemma RotateError(x: nat, y: nat, u: int, t: int, p: nat, d: int, e: int)
    requires p >= 1 && u == p * x + y + d && t == p * y - x + e && Abs(d) <= p && Abs(e) <= p
    ensures Abs(u * u + t * t - (p * p + 1) * (x * x + y * y)) <= p * p * (4 * (x + y) + 2)
  {
    var a, b := p * x + y, p * y - x;
    RotationIdentity(p, x, y);
    SquareOfSum(a, d);
    SquareOfSum(b, e);
    assert p * x >= 0 && p * y >= 0;
    AbsProduct(d, 2 * a + d, p, 2 * (p * x + y) + p);
    AbsProduct(e, 2 * b + e, p, 2 * (p * y + x) + p);
    RotateErrorSum(p, x, y);
  }

  lemma RotationIdentity(p: int, x: int, y: int)
    ensures (p * x + y) * (p * x + y) + (p * y - x) * (p * y - x) == (p * p + 1) * (x * x + y * y)
  {
  }

  lemma SquareOfSum(a: int, d: int)
    ensures (a + d) * (a + d) == a * a + d * (2 * a + d)
  {
  }

  lemma RotateErrorSum(p: nat, x: nat, y: nat)
    requires p >= 1
    ensures p * (2 * (p * x + y) + p) + p * (2 * (p * y + x) + p) <= p * p * (4 * (x + y) + 2)
  {
    MulMonotone(1, p, p);
    MulMonotone(p, p * p, x);
    MulMonotone(p, p * p, y);
    RotateTerm(p, x, y);
    RotateTerm(p, y, x);
    RotateTotal(p * p, x, y);
  }

  lemma RotateTerm(p: int, x: int, y: int)
    ensures p * (2 * (p * x + y) + p) == 2 * (p * p * x) + 2 * (p * y) + p * p
  {
    Distribute(2 * (p * x + y), p, p);
    Distribute(p * x, y, 2 * p);
  }

  lemma RotateTotal(q: int, x: int, y: int)
    ensures q * (4 * (x + y) + 2) == 4 * (q * x) + 4 * (q * y) + 2 * q
  {
    Distribute(4 * (x + y), 2, q);
    Distribute(x, y, 4 * q);
  }

  /** Gain numerators and denominators: the exact rotation gain of iterations 0 .. k - 1 is
      GainNum(k) / GainDen(k), the product of 1 + 4^-i. */
  function GainNum(k: nat): (g: nat)
    ensures g >= 1
  {
    if k == 0 then 1 else GainNum(k - 1) * (Pow2(k - 1) * Pow2(k - 1) + 1)
  }

  function GainDen(k: nat): (q: nat)
    ensures q >= 1
  {
    if k == 0 then 1 else GainDen(k - 1) * (Pow2(k - 1) * Pow2(k - 1))
  }

  lemma {:induction false} GainAtLeastOne(k: nat)
    ensures GainDen(k) <= GainNum(k)
  {
    if k > 0 {
      GainAtLeastOne(k - 1);
      var p := Pow2(k - 1) * Pow2(k - 1);
      MulMonotone(GainDen(k - 1), GainNum(k - 1), p);
      Distribute(p, 1, GainNum(k - 1));
    }
  }

  /** Rounding accumulated over the loop: one term linear in x + |y| per iteration. */
  function Rounding(v: Vec, k: nat): nat {
    if k == 0 then 0
    else Rounding(v, k - 1) + 4 * Abs(Iterate(v, k - 1).x) + 4 * Abs(Iterate(v, k - 1).y) + 2
  }

  lemma {:induction false} NormAccumulates(v: Vec, k: nat)
    requires 0 <= v.y <= v.x
    ensures Abs(GainDen(k) * Norm(Iterate(v, k)) - GainNum(k) * Norm(v)) <= GainNum(k) * Rounding(v, k)
  {
    hide Norm, Pow2, VectorStep, Converging;
    if k > 0 {
      NormAccumulates(v, k - 1);
      var m := Iterate(v, k - 1);
      NonNegativeX(v, k - 1);
      StepNorm(m, k - 1);
      GainAtLeastOne(k - 1);
      Accumulate(GainDen(k - 1), GainNum(k - 1), Pow2(k - 1) * Pow2(k - 1), Norm(v), Norm(m),
                 Norm(Iterate(v, k)), Rounding(v, k - 1), 4 * (m.x + Abs(m.y)) + 2);
    }
  }

  lemma NonNegativeX(v: Vec, k: nat)
    requires 0 <= v.y <= v.x
    ensures Iterate(v, k).x >= 0
  {
    IterateConverges(v, k);
  }

  /** Errors add up: the old one is carried over with the step's gain, the new one enters
      with the denominator of the gain so far, which is the smaller of the two. */
  lemma Accumulate(q: nat, g: nat, p: nat, n0: int, n1: int, n2: int, s: nat, t: nat)
    requires q <= g
    requires Abs(q * n1 - g * n0) <= g * s
    requires Abs(p * n2 - (p + 1) * n1) <= p * t
    ensures Abs(q * p * n2 - g * (p + 1) * n0) <= g * (p + 1) * (s + t)
  {
    var e, d := p * n2 - (p + 1) * n1, q * n1 - g * n0;
    SplitError(q, g, p, n0, n1, n2);
    AbsProduct(q, e, q, p * t);
    AbsProduct(p + 1, d, p + 1, g * s);
    SplitBound(q, g, p, s, t);
  }

  lemma SplitError(q: int, g: int, p: int, n0: int, n1: int, n2: int)
    ensures q * p * n2 - g * (p + 1) * n0 == q * (p * n2 - (p + 1) * n1) + (p + 1) * (q * n1 - g * n0)
  {
  }

  lemma SplitBound(q: nat, g: nat, p: nat, s: nat, t: nat)
    requires q <= g
    ensures q * (p * t) + (p + 1) * (g * s) <= g * (p + 1) * (s + t)
  {
    assert p * t >= 0 && g * t >= 0;
    MulMonotone(q, g, p * t);
    assert g * (p + 1) * (s + t) == g * (p * t) + g * t + (p + 1) * (g * s);
  }

  /** The accumulated rounding is at most linear in the final x, per iteration. */
  lemma {:induction false} RoundingLinear(v: Vec, j: nat, k: nat)
    requires 0 <= v.y <= v.x && j <= k
    ensures Rounding(v, j) <= j * (8 * Iterate(v, k).x + 4 * k + 2)
  {
    hide Pow2, VectorStep, Converging;
    if j > 0 {
      RoundingLinear(v, j - 1, k);
      IterateGrows(v, j - 1, k);
      IterateYBelowX(v, j - 1);
      NonNegativeX(v, j - 1);
      Distribute(j - 1, 1, 8 * Iterate(v, k).x + 4 * k + 2);
    }
  }

  lemma IterateYBelowX(v: Vec, k: nat)
    requires 0 <= v.y <= v.x
    ensures Abs(Iterate(v, k).y) <= Iterate(v, k).x + k
  {
    IterateConverges(v, k);
    YBelowX(Iterate(v, k), k);
  }

  lemma YBelowX(v: Vec, k: nat)
    requires Converging(v, k)
    ensures Abs(v.y) <= v.x + k
  {
    if k > 0 {
      var h, d := Pow2(k - 1), Abs(v.y) - (k - 1);
      Distribute(d, k - 1, h);
      MulBounds(h, d);
    }
  }

  lemma MagnitudeScaled(a: nat, b: nat, n: nat)
    ensures var v, k := Iterate(Prepared(a, b), n + 1), n + 1;
            && Abs(GainDen(k) * Norm(v) - GainNum(k) * (Pow2(2 * EXTRA_PRECISION) * (a * a + b * b)))
               <= GainNum(k) * (k * (8 * v.x + 4 * k + 2))
            && Abs(v.y) * Pow2(n) <= v.x + n * Pow2(n)
  {
    hide Pow2, Norm, VectorStep, Converging, Prepared, Iterate, Rounding;
    var p, k := Prepared(a, b), n + 1;
    PreparedOrdered(a, b);
    Converges(a, b, n);
    NormAccumulates(p, k);
    RoundingLinear(p, k, k);
    NonNegativeX(p, k);
    MulMonotone(Rounding(p, k), k * (8 * Iterate(p, k).x + 4 * k + 2), GainNum(k));
  }

  lemma ScaleIs()
    ensures Pow2(2 * EXTRA_PRECISION) == 4096
  {
    Pow2Add(6, 6);
    assert Pow2(6) == 64;
  }

  /** The loop computes a magnitude: for all non-negative inputs, the squared norm it ends
      with is the squared input norm times the exact gain, within an error that grows with
      the number of iterations and only linearly with the result. */
  lemma MagnitudeBound(a: nat, b: nat, n: nat)
    ensures var v, k := Iterate(Prepared(a, b), n + 1), n + 1;
            && Abs(GainDen(k) * Norm(v) - GainNum(k) * (4096 * (a * a + b * b)))
               <= GainNum(k) * (k * (8 * v.x + 4 * k + 2))
            && Abs(v.y) * Pow2(n) <= v.x + n * Pow2(n)
  {
    hide *;
    ScaleIs();
    MagnitudeScaled(a, b, n);
  }

  // ----- 32-bit range ------------------------------------------------------

  lemma {:induction false} Pow2AtLeastDouble(k: nat)
    requires k >= 2
    ensures Pow2(k) >= 2 * k
  {
    if k > 2 {
      Pow2AtLeastDouble(k - 1);
    } else {
      assert Pow2(1) == 2 && Pow2(0) == 1;
    }
  }

  /** x never quite reaches four times its start (plus three units per iteration). */
  predicate Bounded(v: Vec, x0: nat, k: nat) {
    var q := Pow2(k) * Pow2(k);
    q * v.x <= (4 * q - 12) * x0 + 3 * k * q
  }

  lemma StepBounded(v: Vec, x0: nat, k: nat)
    requires k >= 2 && Converging(v, k) && Bounded(v, x0, k)
    ensures Bounded(VectorStep(v, k), x0, k + 1)
  {
    hide Shr, Abs;
    var p, w := Pow2(k), VectorStep(v, k);
    ShrBounds(v.y, k);
    Pow2AtLeastDouble(k);
    GrowthAtMostY(v.y, Shr(v.y, k), p, w.x - v.x);
    Doubled(Abs(v.y), k - 1, v.x, Pow2(k - 1));
    GrowthStep(p, p * p, k, v.x, w.x, x0, Abs(v.y));
    FourTimesSquare(p);
  }

  lemma FourTimesSquare(p: int)
    ensures (2 * p) * (2 * p) == 4 * (p * p)
  {
  }

  lemma GrowthAtMostY(y: int, q: int, p: nat, d: int)
    requires p * q <= y < p * q + p && d == if y >= 0 then q else -q
    ensures p * (d - 1) <= Abs(y)
  {
    Distribute(d, -1, p);
    Distribute(q, -q, p);
  }

  lemma Doubled(y: nat, j: nat, x: int, h: nat)
    requires y * h <= x + j * h
    ensures 2 * h * y <= 2 * x + j * (2 * h)
  {
  }

  lemma GrowthStep(p: nat, q: nat, k: nat, x: nat, x': int, x0: nat, y: nat)
    requires k >= 2 && p >= 2 * k && q == p * p
    requires p * (x' - x - 1) <= y && p * y <= 2 * x + (k - 1) * p
    requires q * x <= (4 * q - 12) * x0 + 3 * k * q
    ensures 4 * q * x' <= (4 * (4 * q) - 12) * x0 + 3 * (k + 1) * (4 * q)
  {
    ScaledGrowth(p, x, x', y);
    SquareIsLarge(p, k);
    WeakBound(q, k, x, x0);
    GrowthSum(q, k, x, x', x0, (k - 1) * p);
  }

  lemma ScaledGrowth(p: nat, x: nat, x': int, y: nat)
    requires p * (x' - x - 1) <= y
    ensures p * p * x' <= p * p * x + p * p + p * y
  {
    MulMonotone(p * (x' - x - 1), y, p);
    assert p * (p * (x' - x - 1)) == p * p * x' - p * p * x - p * p;
  }

  lemma SquareIsLarge(p: nat, k: nat)
    requires k >= 2 && p >= 2 * k
    ensures p * p >= 6 * k && p * p >= (k - 1) * p && p * p >= 1
  {
    MulMonotone(4, p, p);
    MulMonotone(k - 1, p, p);
  }

  lemma GrowthSum(q: nat, k: nat, x: nat, x': int, x0: nat, r: nat)
    requires q * x' <= q * x + q + 2 * x + r && r <= q && 6 * k <= q
    requires q * x <= (4 * q - 12) * x0 + 3 * k * q
    requires x <= 4 * x0 + 3 * k
    ensures 4 * q * x' <= (4 * (4 * q) - 12) * x0 + 3 * (k + 1) * (4 * q)
  {
    GrowthTerms(q, k, x', x0);
    GrowthLinear(q * x, q * x', q * x0, k * q, q, k, x, x0, r);
  }

  /** The same products everywhere. */
  lemma GrowthTerms(q: int, k: int, x': int, x0: int)
    ensures 4 * q * x' == 4 * (q * x')
    ensures (4 * q - 12) * x0 == 4 * (q * x0) - 12 * x0
    ensures (4 * (4 * q) - 12) * x0 == 16 * (q * x0) - 12 * x0
    ensures 3 * k * q == 3 * (k * q)
    ensures 3 * (k + 1) * (4 * q) == 12 * (k * q) + 12 * q
  {
    Distribute(4 * q, -12, x0);
    Distribute(4 * (4 * q), -12, x0);
    Distribute(k, 1, 12 * q);
  }

  lemma GrowthLinear(qx: int, qx': int, qx0: int, kq: int, q: int, k: int, x: int, x0: nat, r: int)
    requires qx' <= qx + q + 2 * x + r && r <= q && 6 * k <= q
    requires qx <= 4 * qx0 - 12 * x0 + 3 * kq && x <= 4 * x0 + 3 * k
    ensures 4 * qx' <= 16 * qx0 - 12 * x0 + 12 * kq + 12 * q
  {
  }

  lemma WeakBound(q: nat, k: nat, x: nat, x0: nat)
    requires q >= 1 && q * x <= (4 * q - 12) * x0 + 3 * k * q
    ensures x <= 4 * x0 + 3 * k
  {
    var d := x - 4 * x0 - 3 * k;
    assert q * d == q * x - 4 * (q * x0) - 3 * k * q;
    assert (4 * q - 12) * x0 == 4 * (q * x0) - 12 * x0;
    MulBounds(q, d);
  }

  lemma FirstTwoSteps(v: Vec)
    requires 0 <= v.y <= v.x
    ensures Iterate(v, 1) == Vec(v.x + v.y, v.y - v.x)
    ensures Bounded(Iterate(v, 2), v.x, 2)
  {
    hide Bounded;
    assert Pow2(0) == 1 && Pow2(1) == 2;
    var w := Iterate(v, 1);
    assert Iterate(v, 0) == v;
    assert w == VectorStep(v, 0);
    assert Iterate(v, 2) == VectorStep(w, 1);
    BoundedAtTwo(Iterate(v, 2), v.x);
  }

  lemma BoundedAtTwo(v: Vec, x0: nat)
    requires 0 <= v.x <= 3 * x0 + 1
    ensures Bounded(v, x0, 2)
  {
    assert Pow2(0) == 1 && Pow2(1) == 2 && Pow2(2) == 4;
  }

  lemma {:induction false} IterateBounded(v: Vec, k: nat)
    requires 0 <= v.y <= v.x && k >= 2
    ensures Bounded(Iterate(v, k), v.x, k)
  {
    if k == 2 {
      FirstTwoSteps(v);
    } else {
      IterateBounded(v, k - 1);
      IterateConverges(v, k - 1);
      StepBounded(Iterate(v, k - 1), v.x, k - 1);
    }
  }

  lemma IterateAtMost(v: Vec, k: nat)
    requires 0 <= v.y <= v.x
    ensures Iterate(v, k).x <= 4 * v.x + 3 * k
  {
    if k >= 2 {
      IterateBounded(v, k);
      NonNegativeX(v, k);
      SquareIsLarge(Pow2(k), k) by {
        Pow2AtLeastDouble(k);
      }
      WeakBound(Pow2(k) * Pow2(k), k, Iterate(v, k).x, v.x);
    } else if k == 1 {
      FirstTwoSteps(v);
    }
  }

  /** The C code works on 32-bit ints: inputs below 2^22 and shift amounts below 32 keep
      every value the loop produces in range, so unbounded integers model it exactly. */
  lemma FitsInt32(a: nat, b: nat, k: nat)
    requires a < Pow2(22) && b < Pow2(22) && k <= 32
    ensures var v := Iterate(Prepared(a, b), k);
            0 <= v.x < Pow2(31) && Abs(v.y) < Pow2(31)
  {
    hide Pow2, Iterate, Norm;
    var p := Prepared(a, b);
    PreparedOrdered(a, b);
    Pow2Values();
    assert p.x <= 4194303 * 64;
    IterateAtMost(p, k);
    NonNegativeX(p, k);
    IterateYBelowX(p, k);
  }

  lemma Pow2Values()
    ensures Pow2(6) == 64 && Pow2(22) == 4194304 && Pow2(31) == 2147483648
  {
    assert Pow2(5) == 32;
    Pow2Add(5, 5);
    Pow2Add(10, 10);
    Pow2Add(20, 2);
    Pow2Add(22, 9);
    Pow2Add(5, 4);
  }
}
