/**
  Vector algebra over the reals, rays and model-to-world transforms.
  Eigen's `Vector3f`/`Vector2f` become `Vec3`/`Vec2`; the GeomUtil.hpp
  helpers `transformPosition` and `transformNormal` are not part of this
  model and are carried as the two functions of a `Transform`.
 */
module Geometry {

  datatype Vec3 = Vec3(x: real, y: real, z: real)

  datatype Vec2 = Vec2(s: real, t: real)

  function Add(a: Vec3, b: Vec3): Vec3 { Vec3(a.x + b.x, a.y + b.y, a.z + b.z) }

  function Sub(a: Vec3, b: Vec3): Vec3 { Vec3(a.x - b.x, a.y - b.y, a.z - b.z) }

  function Scale(k: real, a: Vec3): Vec3 { Vec3(k * a.x, k * a.y, k * a.z) }

  function Dot(a: Vec3, b: Vec3): real { a.x * b.x + a.y * b.y + a.z * b.z }

  function Cross(a: Vec3, b: Vec3): Vec3 {
    Vec3(a.y * b.z - a.z * b.y, a.z * b.x - a.x * b.z, a.x * b.y - a.y * b.x)
  }

  /** Component `i` of a vector, as Eigen's `v[i]`. */
  function At(a: Vec3, i: nat): real
    requires i < 3
  {
    if i == 0 then a.x else if i == 1 then a.y else a.z
  }

  function Abs(r: real): real { if r < 0.0 then -r else r }

  /** The weighted sum `w0 * a + w1 * b + w2 * c`. */
  function Blend3(w0: real, w1: real, w2: real, a: Vec3, b: Vec3, c: Vec3): Vec3 {
    Add(Add(Scale(w0, a), Scale(w1, b)), Scale(w2, c))
  }

  /** The weighted sum `w0 * a + w1 * b + w2 * c` of texture coordinates. */
  function Blend2(w0: real, w1: real, w2: real, a: Vec2, b: Vec2, c: Vec2): Vec2 {
    Vec2(w0 * a.s + w1 * b.s + w2 * c.s, w0 * a.t + w1 * b.t + w2 * c.t)
  }

  /** A ray: an origin and a direction that need not have unit length. */
  datatype Ray = Ray(origin: Vec3, direction: Vec3)

  /** The point `origin + t * direction`. */
  function PointAt(ray: Ray, t: real): Vec3 {
    Add(ray.origin, Scale(t, ray.direction))
  }

  /** An entity's model-to-world transform, applied to positions and to normals. */
  datatype Transform = Transform(position: Vec3 -> Vec3, normal: Vec3 -> Vec3)

  /** The transform installed by `Matrix4f::Identity()`. */
  function Identity(): Transform {
    Transform(v => v, v => v)
  }

  /**
    Cramer's rule for `u * e1 + v * e2 - t * d == tv`: with `det` the
    triple product `e1 . (d x e2)`, the three ratios below solve it.
   */
  lemma Cramer(e1: Vec3, e2: Vec3, d: Vec3, tv: Vec3)
    requires Dot(e1, Cross(d, e2)) != 0.0
    ensures
      var det := Dot(e1, Cross(d, e2));
      var u := Dot(tv, Cross(d, e2)) / det;
      var v := Dot(d, Cross(tv, e1)) / det;
      var t := Dot(e2, Cross(tv, e1)) / det;
      Add(tv, Scale(t, d)) == Add(Scale(u, e1), Scale(v, e2))
  {
    CramerX(e1, e2, d, tv);
    CramerY(e1, e2, d, tv);
    CramerZ(e1, e2, d, tv);
  }

  /** Cramer's rule on the `x` axis. */
  lemma CramerX(e1: Vec3, e2: Vec3, d: Vec3, tv: Vec3)
    requires Dot(e1, Cross(d, e2)) != 0.0
    ensures
      var det := Dot(e1, Cross(d, e2));
      tv.x + (Dot(e2, Cross(tv, e1)) / det) * d.x == (Dot(tv, Cross(d, e2)) / det) * e1.x + (Dot(d, Cross(tv, e1)) / det) * e2.x
  {
    TripleProductX(e1, e2, d, tv);
    DivideThrough(Dot(e1, Cross(d, e2)), Dot(tv, Cross(d, e2)), Dot(d, Cross(tv, e1)), Dot(e2, Cross(tv, e1)), e1.x, e2.x, d.x, tv.x);
  }

  /** Cramer's rule on the `y` axis. */
  lemma CramerY(e1: Vec3, e2: Vec3, d: Vec3, tv: Vec3)
    requires Dot(e1, Cross(d, e2)) != 0.0
    ensures
      var det := Dot(e1, Cross(d, e2));
      tv.y + (Dot(e2, Cross(tv, e1)) / det) * d.y == (Dot(tv, Cross(d, e2)) / det) * e1.y + (Dot(d, Cross(tv, e1)) / det) * e2.y
  {
    TripleProductY(e1, e2, d, tv);
    DivideThrough(Dot(e1, Cross(d, e2)), Dot(tv, Cross(d, e2)), Dot(d, Cross(tv, e1)), Dot(e2, Cross(tv, e1)), e1.y, e2.y, d.y, tv.y);
  }

  /** Cramer's rule on the `z` axis. */
  lemma CramerZ(e1: Vec3, e2: Vec3, d: Vec3, tv: Vec3)
    requires Dot(e1, Cross(d, e2)) != 0.0
    ensures
      var det := Dot(e1, Cross(d, e2));
      tv.z + (Dot(e2, Cross(tv, e1)) / det) * d.z == (Dot(tv, Cross(d, e2)) / det) * e1.z + (Dot(d, Cross(tv, e1)) / det) * e2.z
  {
    TripleProductZ(e1, e2, d, tv);
    DivideThrough(Dot(e1, Cross(d, e2)), Dot(tv, Cross(d, e2)), Dot(d, Cross(tv, e1)), Dot(e2, Cross(tv, e1)), e1.z, e2.z, d.z, tv.z);
  }

  /** The expansion behind Cramer's rule, one axis at a time. */
  lemma TripleProductX(e1: Vec3, e2: Vec3, d: Vec3, tv: Vec3)
    ensures Dot(e1, Cross(d, e2)) * tv.x
         == Dot(tv, Cross(d, e2)) * e1.x + Dot(d, Cross(tv, e1)) * e2.x - Dot(e2, Cross(tv, e1)) * d.x
  {
  }

  lemma TripleProductY(e1: Vec3, e2: Vec3, d: Vec3, tv: Vec3)
    ensures Dot(e1, Cross(d, e2)) * tv.y
         == Dot(tv, Cross(d, e2)) * e1.y + Dot(d, Cross(tv, e1)) * e2.y - Dot(e2, Cross(tv, e1)) * d.y
  {
  }

  lemma TripleProductZ(e1: Vec3, e2: Vec3, d: Vec3, tv: Vec3)
    ensures Dot(e1, Cross(d, e2)) * tv.z
         == Dot(tv, Cross(d, e2)) * e1.z + Dot(d, Cross(tv, e1)) * e2.z - Dot(e2, Cross(tv, e1)) * d.z
  {
  }

  /**
    The converse of Cramer's rule: when `u * e1 + v * e2 - t * d == tv` and
    the determinant is not zero, the three ratios are exactly `u`, `v` and
    `t`, so the solution is unique.
   */
  lemma CramerUnique(e1: Vec3, e2: Vec3, d: Vec3, tv: Vec3, t: real, u: real, v: real)
    requires Dot(e1, Cross(d, e2)) != 0.0
    requires Add(tv, Scale(t, d)) == Add(Scale(u, e1), Scale(v, e2))
    ensures
      var det := Dot(e1, Cross(d, e2));
      && Dot(tv, Cross(d, e2)) / det == u
      && Dot(d, Cross(tv, e1)) / det == v
      && Dot(e2, Cross(tv, e1)) / det == t
  {
    var det := Dot(e1, Cross(d, e2));
    assert tv == Combine(u, e1, v, e2, t, d);
    CombineAlongPVec(u, e1, v, e2, t, d);
    CombineAlongQVec(u, e1, v, e2, t, d);
    CombineAcrossQVec(u, e1, v, e2, t, d);
    Cancel(det, u);
    Cancel(det, v);
    Cancel(det, t);
  }

  /** The vector `u * e1 + v * e2 - t * d`. */
  function Combine(u: real, e1: Vec3, v: real, e2: Vec3, t: real, d: Vec3): Vec3 {
    Vec3(u * e1.x + v * e2.x - t * d.x, u * e1.y + v * e2.y - t * d.y, u * e1.z + v * e2.z - t * d.z)
  }

  /** Along `d x e2` only the `e1` part of the combination is left: `u` times the determinant. */
  lemma CombineAlongPVec(u: real, e1: Vec3, v: real, e2: Vec3, t: real, d: Vec3)
    ensures Dot(Combine(u, e1, v, e2, t, d), Cross(d, e2)) == u * Dot(e1, Cross(d, e2))
  {
  }

  /** `d . ((u e1 + v e2 - t d) x e1)` is `v` times the determinant. */
  lemma CombineAlongQVec(u: real, e1: Vec3, v: real, e2: Vec3, t: real, d: Vec3)
    ensures Dot(d, Cross(Combine(u, e1, v, e2, t, d), e1)) == v * Dot(e1, Cross(d, e2))
  {
    var w := Cross(e1, d);
    TripleCyclic(d, Combine(u, e1, v, e2, t, d), e1);
    TripleCyclic(e1, d, Combine(u, e1, v, e2, t, d));
    CombineDot(u, e1, v, e2, t, d, w);
    TripleRepeat(e1, d);
    TripleCyclic(e2, e1, d);
    TripleCyclic(d, e2, e1);
  }

  /** `e2 . ((u e1 + v e2 - t d) x e1)` is `t` times the determinant. */
  lemma CombineAcrossQVec(u: real, e1: Vec3, v: real, e2: Vec3, t: real, d: Vec3)
    ensures Dot(e2, Cross(Combine(u, e1, v, e2, t, d), e1)) == t * Dot(e1, Cross(d, e2))
  {
    var w := Cross(e1, e2);
    TripleCyclic(e2, Combine(u, e1, v, e2, t, d), e1);
    TripleCyclic(e1, e2, Combine(u, e1, v, e2, t, d));
    CombineDot(u, e1, v, e2, t, d, w);
    TripleRepeat(e1, e2);
    TripleCyclic(d, e1, e2);
    TripleCyclic(e2, d, e1);
    TripleSwap(e1, e2, d);
  }

  /** The triple product is unchanged by a cyclic shift of its factors. */
  lemma TripleCyclic(a: Vec3, b: Vec3, c: Vec3)
    ensures Dot(a, Cross(b, c)) == Dot(c, Cross(a, b))
  {
  }

  /** Swapping the factors of the cross product changes the sign of the triple product. */
  lemma TripleSwap(a: Vec3, b: Vec3, c: Vec3)
    ensures Dot(a, Cross(b, c)) == -Dot(a, Cross(c, b))
  {
  }

  /** A cross product is orthogonal to both its factors. */
  lemma TripleRepeat(a: Vec3, b: Vec3)
    ensures Dot(a, Cross(a, b)) == 0.0 && Dot(b, Cross(a, b)) == 0.0
  {
  }

  /** The dot product is linear in its left argument. */
  lemma CombineDot(u: real, a: Vec3, v: real, b: Vec3, t: real, c: Vec3, w: Vec3)
    ensures Dot(Combine(u, a, v, b, t, c), w) == u * Dot(a, w) + v * Dot(b, w) - t * Dot(c, w)
  {
  }

  lemma Cancel(det: real, k: real)
    requires det != 0.0
    ensures (k * det) / det == k
  {
  }

  /** One component of Cramer's rule: divide `det * s == a * p + b * q - c * r` by `det`. */
  lemma DivideThrough(det: real, a: real, b: real, c: real, p: real, q: real, r: real, s: real)
    requires det != 0.0
    requires det * s == a * p + b * q - c * r
    ensures s + (c / det) * r == (a / det) * p + (b / det) * q
  {
    var inv := 1.0 / det;
    assert inv * det == 1.0;
    assert a / det == a * inv && b / det == b * inv && c / det == c * inv;
    calc {
      s;
      (inv * det) * s;
      inv * (det * s);
      inv * (a * p + b * q - c * r);
      (a * inv) * p + (b * inv) * q - (c * inv) * r;
    }
  }

  /** Multiplying by a non-negative weight keeps an order. */
  lemma WeightMonotone(w: real, lo: real, p: real, hi: real)
    requires 0.0 <= w && lo <= p <= hi
    ensures w * lo <= w * p <= w * hi
  {
    assert w * (p - lo) >= 0.0;
    assert w * (hi - p) >= 0.0;
  }

  /** A convex combination of three points stays within any bounds they share on an axis. */
  lemma BlendWithin(w0: real, w1: real, w2: real, a: Vec3, b: Vec3, c: Vec3, i: nat, lo: real, hi: real)
    requires i < 3
    requires 0.0 <= w0 && 0.0 <= w1 && 0.0 <= w2 && w0 + w1 + w2 == 1.0
    requires lo <= At(a, i) <= hi && lo <= At(b, i) <= hi && lo <= At(c, i) <= hi
    ensures lo <= At(Blend3(w0, w1, w2, a, b, c), i) <= hi
  {
    if i == 0 {
      BlendWithinX(w0, w1, w2, a, b, c, lo, hi);
    } else if i == 1 {
      BlendWithinY(w0, w1, w2, a, b, c, lo, hi);
    } else {
      BlendWithinZ(w0, w1, w2, a, b, c, lo, hi);
    }
  }

  lemma BlendWithinX(w0: real, w1: real, w2: real, a: Vec3, b: Vec3, c: Vec3, lo: real, hi: real)
    requires 0.0 <= w0 && 0.0 <= w1 && 0.0 <= w2 && w0 + w1 + w2 == 1.0
    requires lo <= a.x <= hi && lo <= b.x <= hi && lo <= c.x <= hi
    ensures lo <= Blend3(w0, w1, w2, a, b, c).x <= hi
  {
    ConvexWithin(w0, w1, w2, a.x, b.x, c.x, lo, hi, Blend3(w0, w1, w2, a, b, c).x);
  }

  lemma BlendWithinY(w0: real, w1: real, w2: real, a: Vec3, b: Vec3, c: Vec3, lo: real, hi: real)
    requires 0.0 <= w0 && 0.0 <= w1 && 0.0 <= w2 && w0 + w1 + w2 == 1.0
    requires lo <= a.y <= hi && lo <= b.y <= hi && lo <= c.y <= hi
    ensures lo <= Blend3(w0, w1, w2, a, b, c).y <= hi
  {
    ConvexWithin(w0, w1, w2, a.y, b.y, c.y, lo, hi, Blend3(w0, w1, w2, a, b, c).y);
  }

  lemma BlendWithinZ(w0: real, w1: real, w2: real, a: Vec3, b: Vec3, c: Vec3, lo: real, hi: real)
    requires 0.0 <= w0 && 0.0 <= w1 && 0.0 <= w2 && w0 + w1 + w2 == 1.0
    requires lo <= a.z <= hi && lo <= b.z <= hi && lo <= c.z <= hi
    ensures lo <= Blend3(w0, w1, w2, a, b, c).z <= hi
  {
    ConvexWithin(w0, w1, w2, a.z, b.z, c.z, lo, hi, Blend3(w0, w1, w2, a, b, c).z);
  }

  /** The scalar form: `x == w0 * p + w1 * q + w2 * r` with convex weights lies within `[lo, hi]`. */
  lemma ConvexWithin(w0: real, w1: real, w2: real, p: real, q: real, r: real, lo: real, hi: real, x: real)
    requires 0.0 <= w0 && 0.0 <= w1 && 0.0 <= w2 && w0 + w1 + w2 == 1.0
    requires lo <= p <= hi && lo <= q <= hi && lo <= r <= hi
    requires x == w0 * p + w1 * q + w2 * r
    ensures lo <= x <= hi
  {
    WeightMonotone(w0, lo, p, hi);
    WeightMonotone(w1, lo, q, hi);
    WeightMonotone(w2, lo, r, hi);
    SumBounds(w0 * lo, w1 * lo, w2 * lo, w0 * p, w1 * q, w2 * r, w0 * hi, w1 * hi, w2 * hi);
    Distribute(w0, w1, w2, lo);
    Distribute(w0, w1, w2, hi);
  }

  lemma SumBounds(l0: real, l1: real, l2: real, m0: real, m1: real, m2: real, h0: real, h1: real, h2: real)
    requires l0 <= m0 <= h0 && l1 <= m1 <= h1 && l2 <= m2 <= h2
    ensures l0 + l1 + l2 <= m0 + m1 + m2 <= h0 + h1 + h2
  {
  }

  lemma Distribute(w0: real, w1: real, w2: real, k: real)
    requires w0 + w1 + w2 == 1.0
    ensures w0 * k + w1 * k + w2 * k == k
  {
    assert w0 * k + w1 * k + w2 * k == (w0 + w1 + w2) * k;
  }

  /**
    From `(o - a) + t d == u (b - a) + v (c - a)` to the hit point as a
    weighted sum of the corners with weights `1 - (u + v)`, `u`, `v`.
   */
  lemma Rearrange(o: Vec3, d: Vec3, a: Vec3, b: Vec3, c: Vec3, t: real, u: real, v: real)
    requires Add(Sub(o, a), Scale(t, d)) == Add(Scale(u, Sub(b, a)), Scale(v, Sub(c, a)))
    ensures Add(o, Scale(t, d)) == Blend3(1.0 - (u + v), u, v, a, b, c)
  {
    RearrangeScalar(o.x, d.x, a.x, b.x, c.x, t, u, v);
    RearrangeScalar(o.y, d.y, a.y, b.y, c.y, t, u, v);
    RearrangeScalar(o.z, d.z, a.z, b.z, c.z, t, u, v);
  }

  /** The converse of `Rearrange`: from the weighted sum back to `(o - a) + t d == u (b - a) + v (c - a)`. */
  lemma Unrearrange(o: Vec3, d: Vec3, a: Vec3, b: Vec3, c: Vec3, t: real, u: real, v: real)
    requires Add(o, Scale(t, d)) == Blend3(1.0 - (u + v), u, v, a, b, c)
    ensures Add(Sub(o, a), Scale(t, d)) == Add(Scale(u, Sub(b, a)), Scale(v, Sub(c, a)))
  {
    UnrearrangeX(o, d, a, b, c, t, u, v);
    UnrearrangeY(o, d, a, b, c, t, u, v);
    UnrearrangeZ(o, d, a, b, c, t, u, v);
  }

  lemma UnrearrangeX(o: Vec3, d: Vec3, a: Vec3, b: Vec3, c: Vec3, t: real, u: real, v: real)
    requires Add(o, Scale(t, d)).x == Blend3(1.0 - (u + v), u, v, a, b, c).x
    ensures Add(Sub(o, a), Scale(t, d)).x == Add(Scale(u, Sub(b, a)), Scale(v, Sub(c, a))).x
  {
    UnrearrangeScalar(o.x, d.x, a.x, b.x, c.x, t, u, v);
  }

  lemma UnrearrangeY(o: Vec3, d: Vec3, a: Vec3, b: Vec3, c: Vec3, t: real, u: real, v: real)
    requires Add(o, Scale(t, d)).y == Blend3(1.0 - (u + v), u, v, a, b, c).y
    ensures Add(Sub(o, a), Scale(t, d)).y == Add(Scale(u, Sub(b, a)), Scale(v, Sub(c, a))).y
  {
    UnrearrangeScalar(o.y, d.y, a.y, b.y, c.y, t, u, v);
  }

  lemma UnrearrangeZ(o: Vec3, d: Vec3, a: Vec3, b: Vec3, c: Vec3, t: real, u: real, v: real)
    requires Add(o, Scale(t, d)).z == Blend3(1.0 - (u + v), u, v, a, b, c).z
    ensures Add(Sub(o, a), Scale(t, d)).z == Add(Scale(u, Sub(b, a)), Scale(v, Sub(c, a))).z
  {
    UnrearrangeScalar(o.z, d.z, a.z, b.z, c.z, t, u, v);
  }

  lemma UnrearrangeScalar(o: real, d: real, a: real, b: real, c: real, t: real, u: real, v: real)
    requires o + t * d == ((1.0 - (u + v)) * a + u * b) + v * c
    ensures (o - a) + t * d == u * (b - a) + v * (c - a)
  {
    assert u * (b - a) == u * b - u * a;
    assert v * (c - a) == v * c - v * a;
    assert (1.0 - (u + v)) * a == a - u * a - v * a;
  }

  lemma RearrangeScalar(o: real, d: real, a: real, b: real, c: real, t: real, u: real, v: real)
    requires (o - a) + t * d == u * (b - a) + v * (c - a)
    ensures o + t * d == (1.0 - (u + v)) * a + u * b + v * c
  {
    assert u * (b - a) == u * b - u * a;
    assert v * (c - a) == v * c - v * a;
    assert (1.0 - (u + v)) * a == a - u * a - v * a;
  }
}
