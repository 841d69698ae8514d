/**
  AABBMesh.hpp: a mesh whose intersection first clips the ray against the
  mesh's world-space axis-aligned bounding box (the slab test) and only then
  runs the triangle test of Mesh.hpp.
 */
module AABBMeshes {

  import opened Wrappers
  import opened Masks
  import opened Geometry
  import opened Renderables
  import opened Wavefront
  import opened Meshes
  import opened FlatTriangle

  /** `numeric_limits<float>::max()`, the seed of every lower bound. */
  const FloatMax: real := 340282346638528859811704183484516925440.0

  /**
    `numeric_limits<float>::min()`, the seed of every upper bound: the
    smallest positive normal float `2^-126`, not the most negative float.
   */
  const FloatMinPositive: real := 1.0 / 85070591730234615865843651857942052864.0

  /** What `modelToWorld` reads without checks: three vertex indices in range on every face. */
  predicate BoxReady(m: Model) {
    forall f | 0 <= f < |m.faces| :: Indexed(m.faces[f], |m.verts|)
  }

  /** Corner `k` of face `f` moved by `T`, as `modelToWorld` reads it. */
  function FaceCorner(m: Model, T: Transform, f: nat, k: nat): Vec3
    requires BoxReady(m) && f < |m.faces| && k < 3
  {
    T.position(m.Vert(m.Face(f)[k]))
  }

  /** The three corners of face `f`, in the order of the `v` loop. */
  function FaceCorners(m: Model, T: Transform, f: nat): seq<Vec3>
    requires BoxReady(m) && f < |m.faces|
  {
    [FaceCorner(m, T, f, 0), FaceCorner(m, T, f, 1), FaceCorner(m, T, f, 2)]
  }

  /** The corners of faces `0 .. n - 1`, in the order the nested loops visit them. */
  function CornersBefore(m: Model, T: Transform, n: nat): seq<Vec3>
    requires BoxReady(m) && n <= |m.faces|
  {
    if n == 0 then [] else CornersBefore(m, T, n - 1) + FaceCorners(m, T, n - 1)
  }

  /** Every corner of every face. */
  function Corners(m: Model, T: Transform): seq<Vec3>
    requires BoxReady(m)
  {
    CornersBefore(m, T, |m.faces|)
  }

  /** `min_[i]` after folding the corners `cs` into it: seeded with `FloatMax`, lowered by `<`. */
  function Lower(cs: seq<Vec3>, i: nat): real
    requires i < 3
  {
    if cs == [] then FloatMax
    else
      var m := Lower(cs[..|cs| - 1], i);
      var c := At(cs[|cs| - 1], i);
      if c < m then c else m
  }

  /** `max_[i]` after folding the corners `cs` into it: seeded with `FloatMinPositive`, raised by `>`. */
  function Upper(cs: seq<Vec3>, i: nat): real
    requires i < 3
  {
    if cs == [] then FloatMinPositive
    else
      var m := Upper(cs[..|cs| - 1], i);
      var c := At(cs[|cs| - 1], i);
      if c > m then c else m
  }

  /** The lower bound is at most every corner's coordinate, and it is the seed or one of them. */
  lemma {:induction false} LowerIsLeast(cs: seq<Vec3>, i: nat)
    requires i < 3
    ensures Lower(cs, i) <= FloatMax
    ensures forall c | c in cs :: Lower(cs, i) <= At(c, i)
    ensures Lower(cs, i) == FloatMax || exists c | c in cs :: Lower(cs, i) == At(c, i)
  {
    if cs != [] {
      var init := cs[..|cs| - 1];
      LowerIsLeast(init, i);
      assert cs == init + [cs[|cs| - 1]];
    }
  }

  /** The upper bound is at least every corner's coordinate, and it is the seed or one of them. */
  lemma {:induction false} UpperIsGreatest(cs: seq<Vec3>, i: nat)
    requires i < 3
    ensures FloatMinPositive <= Upper(cs, i)
    ensures forall c | c in cs :: At(c, i) <= Upper(cs, i)
    ensures Upper(cs, i) == FloatMinPositive || exists c | c in cs :: Upper(cs, i) == At(c, i)
  {
    if cs != [] {
      var init := cs[..|cs| - 1];
      UpperIsGreatest(init, i);
      assert cs == init + [cs[|cs| - 1]];
    }
  }

  /** Folding one more corner `c` into both bounds. */
  lemma FoldOne(cs: seq<Vec3>, c: Vec3, i: nat)
    requires i < 3
    ensures Lower(cs + [c], i) == if At(c, i) < Lower(cs, i) then At(c, i) else Lower(cs, i)
    ensures Upper(cs + [c], i) == if At(c, i) > Upper(cs, i) then At(c, i) else Upper(cs, i)
  {
    assert (cs + [c])[..|cs|] == cs;
  }

  /** Corner `k` of face `f` is among the corners of faces `0 .. n - 1` once `f < n`. */
  lemma {:induction false} CornerVisited(m: Model, T: Transform, n: nat, f: nat, k: nat)
    requires BoxReady(m) && f < n <= |m.faces| && k < 3
    ensures FaceCorner(m, T, f, k) in CornersBefore(m, T, n)
  {
    if f < n - 1 {
      CornerVisited(m, T, n - 1, f, k);
    } else {
      assert FaceCorners(m, T, f)[k] == FaceCorner(m, T, f, k);
    }
  }

  /** The box `lo .. hi` holds every corner of every face of `m` moved by `T`. */
  predicate Encloses(lo: seq<real>, hi: seq<real>, m: Model, T: Transform)
    requires |lo| == 3 && |hi| == 3 && BoxReady(m)
  {
    forall f, k, i | 0 <= f < |m.faces| && 0 <= k < 3 && 0 <= i < 3 ::
      lo[i] <= At(FaceCorner(m, T, f, k), i) <= hi[i]
  }

  /** The bounds of `Corners` as a box. */
  function BoxOf(m: Model, T: Transform): (box: (seq<real>, seq<real>))
    requires BoxReady(m)
    ensures |box.0| == 3 && |box.1| == 3
  {
    var cs := Corners(m, T);
    ([Lower(cs, 0), Lower(cs, 1), Lower(cs, 2)], [Upper(cs, 0), Upper(cs, 1), Upper(cs, 2)])
  }

  /** Folding three corners below the seed gives their least coordinate. */
  lemma LowerOfTriple(a: Vec3, b: Vec3, c: Vec3, i: nat, lo: real)
    requires i < 3 && At(a, i) < FloatMax
    requires lo <= At(a, i) && lo <= At(b, i) && lo <= At(c, i)
    requires lo == At(a, i) || lo == At(b, i) || lo == At(c, i)
    ensures Lower([a, b, c], i) == lo
  {
    assert [a, b, c][..2] == [a, b];
    assert [a, b][..1] == [a];
    assert [a][..0] == [];
    assert Lower([a], i) == At(a, i);
    var ab := if At(b, i) < At(a, i) then At(b, i) else At(a, i);
    assert Lower([a, b], i) == ab;
  }

  /** Folding three corners, one of them above the seed, gives their greatest coordinate. */
  lemma UpperOfTriple(a: Vec3, b: Vec3, c: Vec3, i: nat, hi: real)
    requires i < 3 && FloatMinPositive < hi
    requires At(a, i) <= hi && At(b, i) <= hi && At(c, i) <= hi
    requires hi == At(a, i) || hi == At(b, i) || hi == At(c, i)
    ensures Upper([a, b, c], i) == hi
  {
    assert [a, b, c][..2] == [a, b];
    assert [a, b][..1] == [a];
    assert [a][..0] == [];
    var sa := if At(a, i) > FloatMinPositive then At(a, i) else FloatMinPositive;
    assert Upper([a], i) == sa;
    var sb := if At(b, i) > sa then At(b, i) else sa;
    assert Upper([a, b], i) == sb;
  }

  /** The recomputed box contains every transformed face vertex. */
  lemma BoxEncloses(m: Model, T: Transform)
    requires BoxReady(m)
    ensures Encloses(BoxOf(m, T).0, BoxOf(m, T).1, m, T)
  {
    var cs := Corners(m, T);
    LowerIsLeast(cs, 0);
    LowerIsLeast(cs, 1);
    LowerIsLeast(cs, 2);
    UpperIsGreatest(cs, 0);
    UpperIsGreatest(cs, 1);
    UpperIsGreatest(cs, 2);
    forall f, k | 0 <= f < |m.faces| && 0 <= k < 3
      ensures FaceCorner(m, T, f, k) in cs
    {
      CornerVisited(m, T, |m.faces|, f, k);
    }
  }

  /** Under the identity transform the corners are the model's own vertices. */
  lemma IdentityCornersAreVertices(m: Model, f: nat, k: nat)
    requires BoxReady(m) && f < |m.faces| && k < 3
    ensures FaceCorner(m, Identity(), f, k) == m.verts[m.faces[f][k]]
  {
  }

  /** Every ray direction component is nonzero, so `1 / direction[a]` is a real number. */
  predicate NonzeroDirection(ray: Ray) {
    ray.direction.x != 0.0 && ray.direction.y != 0.0 && ray.direction.z != 0.0
  }

  /** When the working interval counts as empty: as written, also when it is a single point. */
  datatype RejectRule = RejectTouching | RejectEmpty

  predicate Rejects(rule: RejectRule, minTtmp: real, maxTtmp: real) {
    match rule
    case RejectTouching => maxTtmp <= minTtmp
    case RejectEmpty => maxTtmp < minTtmp
  }

  /**
    `t0` and `t1` of one axis: where the ray crosses the two planes, swapped
    when `invD < 0`. The products `(lo - o) * invD` of the source are
    written as divisions by `d`.
   */
  function AxisTimes(lo: real, hi: real, o: real, d: real): (real, real)
    requires d != 0.0
  {
    var invD := 1.0 / d;
    var t0 := (lo - o) / d;
    var t1 := (hi - o) / d;
    if invD < 0.0 then (t1, t0) else (t0, t1)
  }

  /** One axis narrows the working interval `(a, b)` to the part between its two planes. */
  function Narrow(lo: real, hi: real, o: real, d: real, a: real, b: real): (r: (real, real))
    requires d != 0.0
    ensures a <= r.0 && AxisTimes(lo, hi, o, d).0 <= r.0
    ensures r.0 == a || r.0 == AxisTimes(lo, hi, o, d).0
    ensures r.1 <= b && r.1 <= AxisTimes(lo, hi, o, d).1
    ensures r.1 == b || r.1 == AxisTimes(lo, hi, o, d).1
  {
    var (t0, t1) := AxisTimes(lo, hi, o, d);
    (if t0 > a then t0 else a, if t1 < b then t1 else b)
  }

  /**
    The working interval `(minTtmp, maxTtmp)` after axes `0 .. n - 1`, or
    nothing once an axis has rejected the ray.
   */
  function Slab(lo: seq<real>, hi: seq<real>, ray: Ray, minT: real, maxT: real, n: nat, rule: RejectRule): (r: Option<(real, real)>)
    requires |lo| == 3 && |hi| == 3 && n <= 3 && NonzeroDirection(ray)
    ensures n == 0 ==> r == Some((minT, maxT))
    ensures r.Some? && n > 0 ==> !Rejects(rule, r.value.0, r.value.1)
    ensures r.Some? ==> minT <= r.value.0 && r.value.1 <= maxT
  {
    if n == 0 then Some((minT, maxT))
    else match Slab(lo, hi, ray, minT, maxT, n - 1, rule)
      case None => None
      case Some((a, b)) =>
        var (a', b') := Narrow(lo[n - 1], hi[n - 1], At(ray.origin, n - 1), At(ray.direction, n - 1), a, b);
        if Rejects(rule, a', b') then None else Some((a', b'))
  }

  /** `AABBMesh::intersect` as a function: the mask, then the slab test, then `Mesh::intersect`. */
  function BoxedIntersection(mesh: Mesh, lo: seq<real>, hi: seq<real>, ray: Ray, minT: real, maxT: real,
                             info: HitInfo, mask: IntersectMask, rule: RejectRule): (r: (Outcome, HitInfo))
    requires |lo| == 3 && |hi| == 3 && NonzeroDirection(ray)
    requires mesh.base.CheckMask(mask) ==> WellIndexed(mesh.model)
    ensures r == (Miss, info) || r == Intersection(mesh, ray, minT, maxT, info, mask)
    ensures r.0 == Miss ==> r.1 == info
  {
    if !mesh.base.CheckMask(mask) then (Miss, info)
    else if Slab(lo, hi, ray, minT, maxT, 3, rule).None? then (Miss, info)
    else Intersection(mesh, ray, minT, maxT, info, mask)
  }

  /**
    A Mesh whose world-space bounding box is kept in `boxMin`/`boxMax`
    (`min_`/`max_` of the source); the box is recomputed whenever the
    transform changes.
   */
  class AABBMesh {
    const base: Renderable
    const model: Model
    const culling: bool
    var transform: Transform
    const boxMin: array<real>
    const boxMax: array<real>

    /** The box is the fold of every transformed face corner under the current transform. */
    ghost predicate Valid()
      reads this, boxMin, boxMax
    {
      && boxMin.Length == 3 && boxMax.Length == 3 && boxMin != boxMax
      && BoxReady(model)
      && boxMin[..] == BoxOf(model, transform).0
      && boxMax[..] == BoxOf(model, transform).1
    }

    /** The Mesh part of this object. */
    function AsMesh(): Mesh
      reads this
    {
      Mesh(base, model, culling, transform)
    }

    /** `AABBMesh(shader, model, culling = true, mask = DEFAULT_BITMASK)`: installs the identity transform. */
    constructor (shader: ShaderRef, model: Model, culling: bool := true, mask: IntersectMask := DefaultMask)
      requires BoxReady(model)
      ensures Valid()
      ensures base == NewRenderable(shader, mask) && this.model == model && this.culling == culling
      ensures transform == Identity()
      ensures forall f, k, i | 0 <= f < |model.faces| && 0 <= k < 3 && 0 <= i < 3 ::
        boxMin[i] <= At(model.verts[model.faces[f][k]], i) <= boxMax[i]
      ensures fresh(boxMin) && fresh(boxMax)
    {
      base := NewRenderable(shader, mask);
      this.model := model;
      this.culling := culling;
      boxMin := new real[3];
      boxMax := new real[3];
      new;
      ModelToWorld(Identity());
      BoxEncloses(model, Identity());
      forall f, k | 0 <= f < |model.faces| && 0 <= k < 3 {
        IdentityCornersAreVertices(model, f, k);
      }
    }

    /**
      `modelToWorld(m)`: stores the transform, resets both corners of the
      box to their seeds and folds every transformed face corner into them.
      The new box depends on the model and `m` only.
     */
    method ModelToWorld(m: Transform)
      requires boxMin.Length == 3 && boxMax.Length == 3 && boxMin != boxMax && BoxReady(model)
      modifies this, boxMin, boxMax
      ensures transform == m
      ensures boxMin[..] == BoxOf(model, m).0 && boxMax[..] == BoxOf(model, m).1
      ensures Valid()
    {
      transform := m;
      for i := 0 to 3
        invariant transform == m
        invariant forall j | 0 <= j < i :: boxMin[j] == FloatMax && boxMax[j] == FloatMinPositive
      {
        boxMin[i] := FloatMax;
        boxMax[i] := FloatMinPositive;
      }
      for f := 0 to |model.faces|
        invariant transform == m
        invariant forall j | 0 <= j < 3 :: boxMin[j] == Lower(CornersBefore(model, m, f), j) && boxMax[j] == Upper(CornersBefore(model, m, f), j)
      {
        FoldFace(m, f);
      }
      assert boxMin[..] == [boxMin[0], boxMin[1], boxMin[2]];
      assert boxMax[..] == [boxMax[0], boxMax[1], boxMax[2]];
    }

    /** The `v` loop: fold the three corners of face `f` into the box. */
    method FoldFace(m: Transform, f: nat)
      requires boxMin.Length == 3 && boxMax.Length == 3 && boxMin != boxMax && BoxReady(model) && f < |model.faces|
      requires forall j | 0 <= j < 3 :: boxMin[j] == Lower(CornersBefore(model, m, f), j) && boxMax[j] == Upper(CornersBefore(model, m, f), j)
      modifies boxMin, boxMax
      ensures forall j | 0 <= j < 3 :: boxMin[j] == Lower(CornersBefore(model, m, f + 1), j) && boxMax[j] == Upper(CornersBefore(model, m, f + 1), j)
    {
      ghost var done := CornersBefore(model, m, f);
      for v := 0 to 3
        invariant done == CornersBefore(model, m, f) + FaceCorners(model, m, f)[..v]
        invariant forall j | 0 <= j < 3 :: boxMin[j] == Lower(done, j) && boxMax[j] == Upper(done, j)
      {
        var v0 := m.position(model.Vert(model.Face(f)[v]));
        FoldCorner(done, v0);
        done := done + [v0];
      }
      assert FaceCorners(model, m, f)[..3] == FaceCorners(model, m, f);
    }

    /** The innermost loop: fold one corner into each axis of the box. */
    method FoldCorner(ghost done: seq<Vec3>, v0: Vec3)
      requires boxMin.Length == 3 && boxMax.Length == 3 && boxMin != boxMax
      requires forall j | 0 <= j < 3 :: boxMin[j] == Lower(done, j) && boxMax[j] == Upper(done, j)
      modifies boxMin, boxMax
      ensures forall j | 0 <= j < 3 :: boxMin[j] == Lower(done + [v0], j) && boxMax[j] == Upper(done + [v0], j)
    {
      for i := 0 to 3
        invariant forall j | 0 <= j < i :: boxMin[j] == Lower(done + [v0], j) && boxMax[j] == Upper(done + [v0], j)
        invariant forall j | i <= j < 3 :: boxMin[j] == Lower(done, j) && boxMax[j] == Upper(done, j)
      {
        FoldOne(done, v0, i);
        if At(v0, i) < boxMin[i] {
          boxMin[i] := At(v0, i);
        }
        if At(v0, i) > boxMax[i] {
          boxMax[i] := At(v0, i);
        }
      }
    }

    /**
      `intersect`: the mask, then the slab test axis by axis with an early
      exit, then `Mesh::intersect` with the caller's `minT` and `maxT`. The
      source is the instance `rule == RejectTouching`; `RejectEmpty` is the
      corrected test, which rejects only an empty interval, and with it the
      object answers exactly as its mesh does on an all-triangle model.
     */
    method Intersect(ray: Ray, minT: real, maxT: real, info: HitInfo, mask: IntersectMask, rule: RejectRule)
      returns (outcome: Outcome, result: HitInfo)
      requires Valid() && NonzeroDirection(ray)
      requires base.CheckMask(mask) ==> WellIndexed(model)
      ensures (outcome, result) == BoxedIntersection(AsMesh(), boxMin[..], boxMax[..], ray, minT, maxT, info, mask, rule)
      ensures rule == RejectEmpty && TrianglesBefore(model, |model.faces|) ==>
        (outcome, result) == Meshes.Intersection(AsMesh(), ray, minT, maxT, info, mask)
    {
      if rule == RejectEmpty && TrianglesBefore(model, |model.faces|) && base.CheckMask(mask) {
        ClosedBoxNeverChangesTheAnswer(AsMesh(), ray, minT, maxT, info, mask);
      }
      if !base.CheckMask(mask) {
        return Miss, info;
      }
      var minTtmp, maxTtmp := minT, maxT;
      for a := 0 to 3
        invariant Slab(boxMin[..], boxMax[..], ray, minT, maxT, a, rule) == Some((minTtmp, maxTtmp))
      {
        minTtmp, maxTtmp := ClipAxis(boxMin[a], boxMax[a], At(ray.origin, a), At(ray.direction, a), minTtmp, maxTtmp);
        if Rejects(rule, minTtmp, maxTtmp) {
          RejectedStaysRejected(boxMin[..], boxMax[..], ray, minT, maxT, a + 1, 3, rule);
          return Miss, info;
        }
      }
      outcome, result := Meshes.Intersect(AsMesh(), ray, minT, maxT, info, mask);
    }
  }

  /** One axis of the slab loop: the interval `Narrow` gives, computed as the source does, with the swap of `t0` and `t1`. */
  method ClipAxis(lo: real, hi: real, orig: real, direction: real, minTtmp: real, maxTtmp: real) returns (a: real, b: real)
    requires direction != 0.0
    ensures (a, b) == Narrow(lo, hi, orig, direction, minTtmp, maxTtmp)
  {
    var invD := 1.0 / direction;
    var t0 := (lo - orig) / direction;
    var t1 := (hi - orig) / direction;
    if invD < 0.0 {
      t0, t1 := t1, t0;
    }
    a, b := minTtmp, maxTtmp;
    if t0 > a {
      a := t0;
    }
    if t1 < b {
      b := t1;
    }
  }

  /** Once an axis rejects the ray, the later axes are not examined: the test stays failed. */
  lemma {:induction false} RejectedStaysRejected(lo: seq<real>, hi: seq<real>, ray: Ray, minT: real, maxT: real, n: nat, k: nat, rule: RejectRule)
    requires |lo| == 3 && |hi| == 3 && n <= k <= 3 && NonzeroDirection(ray)
    requires Slab(lo, hi, ray, minT, maxT, n, rule).None?
    ensures Slab(lo, hi, ray, minT, maxT, k, rule).None?
    decreases k - n
  {
    if n < k {
      RejectedStaysRejected(lo, hi, ray, minT, maxT, n, k - 1, rule);
    }
  }

  /** A query whose mask the mesh does not match is refused before the box test or the mesh test. */
  lemma MaskGateBeforeBox(mesh: Mesh, lo: seq<real>, hi: seq<real>, ray: Ray, minT: real, maxT: real,
                          info: HitInfo, mask: IntersectMask, rule: RejectRule)
    requires |lo| == 3 && |hi| == 3 && NonzeroDirection(ray) && !mesh.base.CheckMask(mask)
    ensures BoxedIntersection(mesh, lo, hi, ray, minT, maxT, info, mask, rule) == (Miss, info)
  {
  }

  /** The working interval only shrinks: it stays inside `[minT, maxT]` and inside the previous axis's interval. */
  lemma {:induction false} IntervalOnlyShrinks(lo: seq<real>, hi: seq<real>, ray: Ray, minT: real, maxT: real, n: nat, rule: RejectRule)
    requires |lo| == 3 && |hi| == 3 && n <= 3 && NonzeroDirection(ray)
    requires Slab(lo, hi, ray, minT, maxT, n, rule).Some?
    ensures var (a, b) := Slab(lo, hi, ray, minT, maxT, n, rule).value; minT <= a && b <= maxT
    ensures n > 0 ==> Slab(lo, hi, ray, minT, maxT, n - 1, rule).Some?
    ensures n > 0 ==>
      var (a, b) := Slab(lo, hi, ray, minT, maxT, n - 1, rule).value;
      var (a', b') := Slab(lo, hi, ray, minT, maxT, n, rule).value;
      a <= a' && b' <= b
  {
    if n > 0 {
      IntervalOnlyShrinks(lo, hi, ray, minT, maxT, n - 1, rule);
    }
  }

  /** After the swap `t0 <= t1`, given that the box is not inverted on that axis. */
  lemma AxisTimesOrdered(lo: real, hi: real, o: real, d: real)
    requires d != 0.0 && lo <= hi
    ensures AxisTimes(lo, hi, o, d).0 <= AxisTimes(lo, hi, o, d).1
  {
    if d > 0.0 {
      DivideKeepsOrder(lo - o, hi - o, d);
    } else {
      DivideKeepsOrder(o - hi, o - lo, -d);
      assert (lo - o) / d == (o - lo) / -d;
      assert (hi - o) / d == (o - hi) / -d;
    }
  }

  /** Division by a positive number keeps an order. */
  lemma DivideKeepsOrder(x: real, y: real, d: real)
    requires d > 0.0 && x <= y
    ensures x / d <= y / d
  {
    assert y / d - x / d == (y - x) / d;
  }

  /**
    An axis whose two planes enclose the point `o + t * d` gives the
    interval `[t0, t1]` holding `t`.
   */
  lemma AxisContains(lo: real, hi: real, o: real, d: real, t: real)
    requires d != 0.0 && lo <= o + t * d <= hi
    ensures AxisTimes(lo, hi, o, d).0 <= t <= AxisTimes(lo, hi, o, d).1
  {
    assert (o + t * d - o) / d == t;
    if d > 0.0 {
      DivideKeepsOrder(lo - o, t * d, d);
      DivideKeepsOrder(t * d, hi - o, d);
    } else {
      DivideKeepsOrder(o - hi, -(t * d), -d);
      DivideKeepsOrder(-(t * d), o - lo, -d);
      assert (lo - o) / d == (o - lo) / -d;
      assert (hi - o) / d == (o - hi) / -d;
      assert -(t * d) / -d == t;
    }
  }

  /** Component `i` of `origin + t * direction`. */
  lemma AtPointAt(ray: Ray, t: real, i: nat)
    requires i < 3
    ensures At(PointAt(ray, t), i) == At(ray.origin, i) + t * At(ray.direction, i)
  {
  }

  /**
    A point `origin + t * direction` inside the box with `t` in `[minT, maxT]`
    keeps `t` in the working interval on every axis, so the closed test
    never rejects it.
   */
  lemma {:induction false} SlabKeeps(lo: seq<real>, hi: seq<real>, ray: Ray, minT: real, maxT: real, t: real, n: nat)
    requires |lo| == 3 && |hi| == 3 && n <= 3 && NonzeroDirection(ray)
    requires minT <= t <= maxT
    requires forall i | 0 <= i < 3 :: lo[i] <= At(PointAt(ray, t), i) <= hi[i]
    ensures Slab(lo, hi, ray, minT, maxT, n, RejectEmpty).Some?
    ensures Slab(lo, hi, ray, minT, maxT, n, RejectEmpty).value.0 <= t <= Slab(lo, hi, ray, minT, maxT, n, RejectEmpty).value.1
  {
    if n > 0 {
      SlabKeeps(lo, hi, ray, minT, maxT, t, n - 1);
      var (a, b) := Slab(lo, hi, ray, minT, maxT, n - 1, RejectEmpty).value;
      NarrowKeeps(lo[n - 1], hi[n - 1], ray, n - 1, a, b, t);
    }
  }

  /** Axis `i`, whose planes enclose the point at `t`, keeps `t` in the narrowed interval. */
  lemma NarrowKeeps(lo: real, hi: real, ray: Ray, i: nat, a: real, b: real, t: real)
    requires i < 3 && NonzeroDirection(ray) && a <= t <= b && lo <= At(PointAt(ray, t), i) <= hi
    ensures Narrow(lo, hi, At(ray.origin, i), At(ray.direction, i), a, b).0 <= t
    ensures t <= Narrow(lo, hi, At(ray.origin, i), At(ray.direction, i), a, b).1
  {
    AtPointAt(ray, t, i);
    AxisContains(lo, hi, At(ray.origin, i), At(ray.direction, i), t);
  }

  /**
    Once the box test passes the answer is exactly `Mesh::intersect` with the
    caller's `minT` and `maxT`; so a true result implies a true result of
    the mesh test, with the same record.
   */
  lemma BoxPassDelegates(mesh: Mesh, lo: seq<real>, hi: seq<real>, ray: Ray, minT: real, maxT: real,
                         info: HitInfo, mask: IntersectMask, rule: RejectRule)
    requires |lo| == 3 && |hi| == 3 && NonzeroDirection(ray)
    requires mesh.base.CheckMask(mask) ==> WellIndexed(mesh.model)
    ensures mesh.base.CheckMask(mask) && Slab(lo, hi, ray, minT, maxT, 3, rule).Some? ==>
      BoxedIntersection(mesh, lo, hi, ray, minT, maxT, info, mask, rule) == Intersection(mesh, ray, minT, maxT, info, mask)
    ensures BoxedIntersection(mesh, lo, hi, ray, minT, maxT, info, mask, rule).0 == Hit ==>
      Intersection(mesh, ray, minT, maxT, info, mask) == BoxedIntersection(mesh, lo, hi, ray, minT, maxT, info, mask, rule)
  {
  }

  /**
    With the test rejecting only an empty interval, a box around every face
    corner never changes the answer of an all-triangle mesh: the hit point
    is a convex blend of the hit face's corners, so it lies in the box.
   */
  lemma ClosedBoxKeepsEveryHit(mesh: Mesh, lo: seq<real>, hi: seq<real>, ray: Ray, minT: real, maxT: real,
                               info: HitInfo, mask: IntersectMask)
    requires |lo| == 3 && |hi| == 3 && NonzeroDirection(ray)
    requires mesh.base.CheckMask(mask) && WellIndexed(mesh.model) && BoxReady(mesh.model)
    requires TrianglesBefore(mesh.model, |mesh.model.faces|)
    requires Encloses(lo, hi, mesh.model, mesh.modelToWorld)
    ensures BoxedIntersection(mesh, lo, hi, ray, minT, maxT, info, mask, RejectEmpty) == Intersection(mesh, ray, minT, maxT, info, mask)
  {
    MissIffNoCandidate(mesh, ray, minT, maxT, info, mask);
    if Intersection(mesh, ray, minT, maxT, info, mask).0 == Hit {
      var b := Nearest(mesh, ray, minT, maxT, |mesh.model.faces|).value;
      HitPassesClosedBox(mesh, lo, hi, ray, minT, maxT, b.face);
    }
  }

  /** The point where the ray meets a candidate face lies in an enclosing box, so the closed slab test lets the ray through. */
  lemma HitPassesClosedBox(mesh: Mesh, lo: seq<real>, hi: seq<real>, ray: Ray, minT: real, maxT: real, f: nat)
    requires |lo| == 3 && |hi| == 3 && NonzeroDirection(ray)
    requires WellIndexed(mesh.model) && BoxReady(mesh.model) && f < |mesh.model.faces| && |mesh.model.faces[f]| == 3
    requires Encloses(lo, hi, mesh.model, mesh.modelToWorld)
    requires Candidate(mesh, ray, minT, maxT, f).Some?
    ensures Slab(lo, hi, ray, minT, maxT, 3, RejectEmpty).Some?
  {
    var m, T, s := mesh.model, mesh.modelToWorld, Candidate(mesh, ray, minT, maxT, f).value;
    var a0, a1, a2 := FaceCorner(m, T, f, 0), FaceCorner(m, T, f, 1), FaceCorner(m, T, f, 2);
    assert MollerTrumbore(ray, a0, a1, a2, mesh.culling) == Some(s) && minT <= s.t <= maxT by {
      assert Corner(mesh, f, 0) == a0 && Corner(mesh, f, 1) == a1 && Corner(mesh, f, 2) == a2;
    }
    HitLiesOnTriangle(ray, a0, a1, a2, mesh.culling);
    FacePointPassesBox(lo, hi, m, T, ray, minT, maxT, f, s.t, s.u, s.v);
  }

  /** A point of the ray inside one face, at a `t` in `[minT, maxT]`, passes the closed slab test of a box enclosing every corner. */
  lemma FacePointPassesBox(lo: seq<real>, hi: seq<real>, m: Model, T: Transform, ray: Ray, minT: real, maxT: real,
                           f: nat, t: real, u: real, v: real)
    requires |lo| == 3 && |hi| == 3 && NonzeroDirection(ray)
    requires BoxReady(m) && f < |m.faces| && Encloses(lo, hi, m, T)
    requires minT <= t <= maxT && 0.0 <= u && 0.0 <= v && u + v <= 1.0
    requires PointAt(ray, t) == Blend3(1.0 - (u + v), u, v, FaceCorner(m, T, f, 0), FaceCorner(m, T, f, 1), FaceCorner(m, T, f, 2))
    ensures Slab(lo, hi, ray, minT, maxT, 3, RejectEmpty).Some?
  {
    BlendInBox(lo, hi, m, T, f, 1.0 - (u + v), u, v, PointAt(ray, t));
    SlabKeeps(lo, hi, ray, minT, maxT, t, 3);
  }

  /** A convex blend of one face's corners lies in a box that encloses every corner. */
  lemma BlendInBox(lo: seq<real>, hi: seq<real>, m: Model, T: Transform, f: nat, w0: real, w1: real, w2: real, p: Vec3)
    requires |lo| == 3 && |hi| == 3 && BoxReady(m) && f < |m.faces| && Encloses(lo, hi, m, T)
    requires 0.0 <= w0 && 0.0 <= w1 && 0.0 <= w2 && w0 + w1 + w2 == 1.0
    requires p == Blend3(w0, w1, w2, FaceCorner(m, T, f, 0), FaceCorner(m, T, f, 1), FaceCorner(m, T, f, 2))
    ensures forall i | 0 <= i < 3 :: lo[i] <= At(p, i) <= hi[i]
  {
    forall i | 0 <= i < 3
      ensures lo[i] <= At(p, i) <= hi[i]
    {
      BlendWithin(w0, w1, w2, FaceCorner(m, T, f, 0), FaceCorner(m, T, f, 1), FaceCorner(m, T, f, 2), i, lo[i], hi[i]);
    }
  }

  /** The same for the box `modelToWorld` computes: the closed test is a pure acceleration. */
  lemma ClosedBoxNeverChangesTheAnswer(mesh: Mesh, ray: Ray, minT: real, maxT: real, info: HitInfo, mask: IntersectMask)
    requires NonzeroDirection(ray)
    requires mesh.base.CheckMask(mask) && WellIndexed(mesh.model) && BoxReady(mesh.model)
    requires TrianglesBefore(mesh.model, |mesh.model.faces|)
    ensures var (lo, hi) := BoxOf(mesh.model, mesh.modelToWorld);
      BoxedIntersection(mesh, lo, hi, ray, minT, maxT, info, mask, RejectEmpty) == Intersection(mesh, ray, minT, maxT, info, mask)
  {
    BoxEncloses(mesh.model, mesh.modelToWorld);
    var (lo, hi) := BoxOf(mesh.model, mesh.modelToWorld);
    ClosedBoxKeepsEveryHit(mesh, lo, hi, ray, minT, maxT, info, mask);
  }

  /** One triangle in the plane `z = 1`, so its bounding box is flat on the `z` axis. */
  const FlatModel: Model := Model(
    [Vec3(0.0, 0.0, 1.0), Vec3(1.0, 0.0, 1.0), Vec3(0.0, 1.0, 1.0)],
    [Vec2(0.0, 0.0)],
    [],
    [[0, 2, 1]],
    [[0, 0, 0]],
    [[0, 0, 0]])

  const FlatMesh: Mesh := Mesh(NewRenderable(NullShader), FlatModel, true, Identity())

  /** A ray from below the plane that meets the triangle at `t = 2`, at `(0.25, 0.25, 1)`. */
  const SteepRay: Ray := Ray(Vec3(0.0, 0.0, -1.0), Vec3(0.125, 0.125, 1.0))

  const BlankInfo: HitInfo := HitInfo(0.0, Vec3(0.0, 0.0, 0.0), Vec3(0.0, 0.0, 0.0), Vec3(0.0, 0.0, 0.0), NullShader, Vec2(0.0, 0.0))

  /** The mesh test accepts the flat triangle at `t = 2` with `u = v = 0.25`. */
  lemma FlatMeshHits()
    ensures Intersection(FlatMesh, SteepRay, 0.001, 1000.0, BlankInfo, DefaultMask).0 == Hit
  {
    FlatIndexed();
    FlatCandidate();
    MissIffNoCandidate(FlatMesh, SteepRay, 0.001, 1000.0, BlankInfo, DefaultMask);
  }

  lemma FlatIndexed()
    ensures WellIndexed(FlatModel) && TrianglesBefore(FlatModel, 1) && FlatMesh.base.CheckMask(DefaultMask)
  {
  }

  lemma FlatCandidate()
    ensures WellIndexed(FlatModel) && Candidate(FlatMesh, SteepRay, 0.001, 1000.0, 0) == Some(Solution(2.0, 0.25, 0.25))
  {
    FlatCorners();
    FlatSteepHit();
    CandidateOfCorners(FlatMesh, SteepRay, 0.001, 1000.0, 0,
      Vec3(0.0, 0.0, 1.0), Vec3(0.0, 1.0, 1.0), Vec3(1.0, 0.0, 1.0), Solution(2.0, 0.25, 0.25));
  }

  lemma FlatCorners()
    ensures WellIndexed(FlatModel) && FlatMesh.culling
    ensures Corner(FlatMesh, 0, 0) == Vec3(0.0, 0.0, 1.0)
    ensures Corner(FlatMesh, 0, 1) == Vec3(0.0, 1.0, 1.0)
    ensures Corner(FlatMesh, 0, 2) == Vec3(1.0, 0.0, 1.0)
  {
    FlatCorner(0);
    FlatCorner(1);
    FlatCorner(2);
  }

  lemma FlatSteepHit()
    ensures MollerTrumbore(SteepRay, Vec3(0.0, 0.0, 1.0), Vec3(0.0, 1.0, 1.0), Vec3(1.0, 0.0, 1.0), true) == Some(Solution(2.0, 0.25, 0.25))
  {
    FlatTriangleHit();
  }

  /** The corners of the one face, in its index order `0 2 1`. */
  lemma FlatCorner(k: nat)
    requires k < 3
    ensures WellIndexed(FlatModel)
    ensures Corner(FlatMesh, 0, k) == [Vec3(0.0, 0.0, 1.0), Vec3(0.0, 1.0, 1.0), Vec3(1.0, 0.0, 1.0)][k]
  {
    FlatIndexed();
  }

  /** The box of the flat triangle is `[0, 1] x [0, 1] x [1, 1]`. */
  lemma FlatBox()
    ensures BoxOf(FlatModel, Identity()) == ([0.0, 0.0, 1.0], [1.0, 1.0, 1.0])
  {
    FlatBoxCorners();
    FlatLowerBounds();
    FlatUpperBounds();
  }

  lemma FlatBoxCorners()
    ensures BoxReady(FlatModel)
    ensures Corners(FlatModel, Identity()) == [Vec3(0.0, 0.0, 1.0), Vec3(0.0, 1.0, 1.0), Vec3(1.0, 0.0, 1.0)]
  {
    assert CornersBefore(FlatModel, Identity(), 0) == [];
  }

  lemma FlatLowerBounds()
    ensures Lower([Vec3(0.0, 0.0, 1.0), Vec3(0.0, 1.0, 1.0), Vec3(1.0, 0.0, 1.0)], 0) == 0.0
    ensures Lower([Vec3(0.0, 0.0, 1.0), Vec3(0.0, 1.0, 1.0), Vec3(1.0, 0.0, 1.0)], 1) == 0.0
    ensures Lower([Vec3(0.0, 0.0, 1.0), Vec3(0.0, 1.0, 1.0), Vec3(1.0, 0.0, 1.0)], 2) == 1.0
  {
    var a, b, c := Vec3(0.0, 0.0, 1.0), Vec3(0.0, 1.0, 1.0), Vec3(1.0, 0.0, 1.0);
    LowerOfTriple(a, b, c, 0, 0.0);
    LowerOfTriple(a, b, c, 1, 0.0);
    LowerOfTriple(a, b, c, 2, 1.0);
  }

  lemma FlatUpperBounds()
    ensures Upper([Vec3(0.0, 0.0, 1.0), Vec3(0.0, 1.0, 1.0), Vec3(1.0, 0.0, 1.0)], 0) == 1.0
    ensures Upper([Vec3(0.0, 0.0, 1.0), Vec3(0.0, 1.0, 1.0), Vec3(1.0, 0.0, 1.0)], 1) == 1.0
    ensures Upper([Vec3(0.0, 0.0, 1.0), Vec3(0.0, 1.0, 1.0), Vec3(1.0, 0.0, 1.0)], 2) == 1.0
  {
    var a, b, c := Vec3(0.0, 0.0, 1.0), Vec3(0.0, 1.0, 1.0), Vec3(1.0, 0.0, 1.0);
    assert FloatMinPositive < 1.0;
    UpperOfTriple(a, b, c, 0, 1.0);
    UpperOfTriple(a, b, c, 1, 1.0);
    UpperOfTriple(a, b, c, 2, 1.0);
  }

  /** On the flat axis `t0 == t1 == 2`, and the rule as written rejects the single point `[2, 2]`. */
  lemma FlatSlabRejects()
    ensures Slab([0.0, 0.0, 1.0], [1.0, 1.0, 1.0], SteepRay, 0.001, 1000.0, 3, RejectTouching).None?
  {
    var lo, hi := [0.0, 0.0, 1.0], [1.0, 1.0, 1.0];
    assert AxisTimes(0.0, 1.0, 0.0, 0.125) == (0.0, 8.0);
    assert AxisTimes(1.0, 1.0, -1.0, 1.0) == (2.0, 2.0);
    assert Slab(lo, hi, SteepRay, 0.001, 1000.0, 1, RejectTouching) == Some((0.001, 8.0));
    assert Slab(lo, hi, SteepRay, 0.001, 1000.0, 2, RejectTouching) == Some((0.001, 8.0));
  }

  /**
    The test as written (line 42 rejects `maxTtmp <= minTtmp`) refuses a ray
    that the mesh test accepts: on the flat `z` axis both planes coincide,
    so `t0 == t1 == 2` and the interval shrinks to a single point.
   */
  lemma FlatBoxRejectsHit()
    ensures Intersection(FlatMesh, SteepRay, 0.001, 1000.0, BlankInfo, DefaultMask).0 == Hit
    ensures var (lo, hi) := BoxOf(FlatModel, Identity());
      BoxedIntersection(FlatMesh, lo, hi, SteepRay, 0.001, 1000.0, BlankInfo, DefaultMask, RejectTouching) == (Miss, BlankInfo)
  {
    FlatMeshHits();
    FlatBox();
    FlatSlabRejects();
  }
}
