/**
  Exponential easing as the street scene uses it every frame: three.js
  `MathUtils.lerp(a, b, t) = a + (b - a) * t` and `Vector3.lerp`, taken over
  the reals (no floating-point rounding).
 */
module Easing {

  /** One easing step from `a` toward `b` with factor `t`. */
  function Lerp(a: real, b: real, t: real): real
  {
    a + (b - a) * t
  }

  /** An easing step leaves the fraction `1 - t` of the distance to the target. */
  lemma LerpRemaining(a: real, b: real, t: real)
    ensures Lerp(a, b, t) - b == (1.0 - t) * (a - b)
  {
  }

  /** `x` lies on the closed segment between `a` and `b`, whichever is larger. */
  predicate Between(x: real, a: real, b: real)
  {
    if a <= b then a <= x <= b else b <= x <= a
  }

  /** With a factor in [0, 1] an easing step never overshoots its target. */
  lemma LerpBetween(a: real, b: real, t: real)
    requires 0.0 <= t <= 1.0
    ensures Between(Lerp(a, b, t), a, b)
  {
    var d := b - a;
    var p := d * t;
    assert Lerp(a, b, t) == a + p;
    if a <= b {
      ScaleWithin(d, t);
    } else {
      ScaleWithin(-d, t);
      assert (-d) * t == -p;
    }
  }

  lemma ScaleWithin(d: real, t: real)
    requires d >= 0.0 && 0.0 <= t <= 1.0
    ensures 0.0 <= d * t <= d
  {
  }

  /** Every point between `a` and `b` eases to a point between `a` and `b`. */
  lemma LerpStaysBetween(x: real, a: real, b: real, t: real)
    requires 0.0 <= t <= 1.0
    requires Between(x, a, b)
    ensures Between(Lerp(x, b, t), a, b)
  {
    LerpBetween(x, b, t);
  }

  function Pow(x: real, n: nat): real
  {
    if n == 0 then 1.0 else x * Pow(x, n - 1)
  }

  /** `n` easing steps toward a fixed target. */
  function LerpN(a: real, b: real, t: real, n: nat): real
    decreases n
  {
    if n == 0 then a else LerpN(Lerp(a, b, t), b, t, n - 1)
  }

  /** After `n` steps the remaining distance is `(1 - t)^n` of the initial one. */
  lemma {:induction false} LerpNDistance(a: real, b: real, t: real, n: nat)
    ensures LerpN(a, b, t, n) - b == Pow(1.0 - t, n) * (a - b)
    decreases n
  {
    if n > 0 {
      var a' := Lerp(a, b, t);
      LerpNDistance(a', b, t, n - 1);
      LerpRemaining(a, b, t);
      var k := 1.0 - t;
      var q := Pow(k, n - 1);
      var e := a - b;
      assert LerpN(a, b, t, n) - b == q * (a' - b);
      assert a' - b == k * e;
      MulAssoc(q, k, e);
      assert Pow(k, n) == k * q;
    }
  }

  lemma MulAssoc(x: real, y: real, z: real)
    ensures x * (y * z) == (x * y) * z
  {
  }

  /** Repeated easing with a factor in [0, 1] stays between start and target. */
  lemma {:induction false} LerpNBetween(a: real, b: real, t: real, n: nat)
    requires 0.0 <= t <= 1.0
    ensures Between(LerpN(a, b, t, n), a, b)
    decreases n
  {
    if n > 0 {
      LerpBetween(a, b, t);
      var a' := Lerp(a, b, t);
      LerpNBetween(a', b, t, n - 1);
    }
  }

  datatype Vec3 = Vec3(x: real, y: real, z: real)

  /** three.js `Vector3.lerp`: component-wise easing. */
  function Vec3Lerp(p: Vec3, q: Vec3, t: real): Vec3
  {
    Vec3(Lerp(p.x, q.x, t), Lerp(p.y, q.y, t), Lerp(p.z, q.z, t))
  }

  /** Each component of an eased vector lies between the old value and the target. */
  lemma Vec3LerpBetween(p: Vec3, q: Vec3, t: real)
    requires 0.0 <= t <= 1.0
    ensures var r := Vec3Lerp(p, q, t);
      Between(r.x, p.x, q.x) && Between(r.y, p.y, q.y) && Between(r.z, p.z, q.z)
  {
    LerpBetween(p.x, q.x, t);
    LerpBetween(p.y, q.y, t);
    LerpBetween(p.z, q.z, t);
  }
}
