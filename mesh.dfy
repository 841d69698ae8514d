/**
  Mesh.hpp: a triangle mesh intersected by testing every face with the
  Möller–Trumbore algorithm and keeping the nearest accepted hit.
 */
module Meshes {

  import opened Wrappers
  import opened Masks
  import opened Geometry
  import opened Renderables
  import opened Wavefront

  /** The `1e-6` threshold of both determinant tests. */
  const Epsilon: real := 0.000001

  /**
    A mesh: the Renderable part (shader and mask), the model it points to,
    whether back faces are culled, and the entity's model-to-world transform.
   */
  datatype Mesh = Mesh(base: Renderable, model: Model, culling: bool, modelToWorld: Transform)

  /** How `intersect` ends: `false`, `true`, or the exception for a face that is not a triangle. */
  datatype Outcome = Miss | Hit | NotTriangular(face: nat)

  /** The distance along the ray and the barycentric coordinates of a triangle hit. */
  datatype Solution = Solution(t: real, u: real, v: real)

  /** The nearest face accepted so far and its solution. */
  datatype Best = Best(face: nat, sol: Solution)

  /** The determinant test: with culling, back-facing and near-parallel triangles; without, only near-parallel ones. */
  predicate Culled(culling: bool, det: real) {
    if culling then det < Epsilon else Abs(det) < Epsilon
  }

  /**
    Möller–Trumbore for the triangle `v0 v1 v2` in world coordinates: the
    determinant test, then `0 <= u <= 1`, then `v >= 0 && u + v <= 1`.
   */
  function MollerTrumbore(ray: Ray, v0: Vec3, v1: Vec3, v2: Vec3, culling: bool): Option<Solution>
  {
    var e1 := Sub(v1, v0);
    var e2 := Sub(v2, v0);
    var pvec := Cross(ray.direction, e2);
    var det := Dot(e1, pvec);
    if Culled(culling, det) then None
    else
      var tvec := Sub(ray.origin, v0);
      var u := Dot(tvec, pvec) / det;
      if u < 0.0 || u > 1.0 then None
      else
        var qvec := Cross(tvec, e1);
        var v := Dot(ray.direction, qvec) / det;
        if v < 0.0 || u + v > 1.0 then None
        else Some(Solution(Dot(e2, qvec) / det, u, v))
  }

  /** The three entries of a face-index list that are read are indices into a table of `size` entries. */
  predicate Indexed(idx: seq<int>, size: nat) {
    |idx| >= 3 && 0 <= idx[0] < size && 0 <= idx[1] < size && 0 <= idx[2] < size
  }

  /**
    What `intersect` demands of its model (the source reads the tables
    without bounds checks): the face tables in lock-step, and every
    triangular face indexing the vertex and texture tables, and the normal
    table when there is one.
   */
  predicate WellIndexed(m: Model) {
    && |m.tfaces| == |m.faces| && |m.nfaces| == |m.faces|
    && forall f | 0 <= f < |m.faces| && |m.faces[f]| == 3 ::
         && Indexed(m.faces[f], |m.verts|)
         && Indexed(m.tfaces[f], |m.vts|)
         && (m.HasNormals() ==> Indexed(m.nfaces[f], |m.vns|))
  }

  /** Faces `0 .. n - 1` all have exactly three vertex indices. */
  predicate TrianglesBefore(m: Model, n: nat) {
    n <= |m.faces| && forall g | 0 <= g < n :: |m.faces[g]| == 3
  }

  /** The first face at or after `from` whose vertex-index list is not three long. */
  function FirstNonTriangle(m: Model, from: nat): (r: Option<nat>)
    requires from <= |m.faces|
    ensures r.Some? ==> from <= r.value < |m.faces| && |m.faces[r.value]| != 3
    ensures r.Some? ==> forall g | from <= g < r.value :: |m.faces[g]| == 3
    ensures r.None? <==> forall g | from <= g < |m.faces| :: |m.faces[g]| == 3
    decreases |m.faces| - from
  {
    if from == |m.faces| then None
    else if |m.faces[from]| != 3 then Some(from)
    else FirstNonTriangle(m, from + 1)
  }

  /** Corner `k` of face `f`, moved into the world. */
  function Corner(mesh: Mesh, f: nat, k: nat): Vec3
    requires WellIndexed(mesh.model) && f < |mesh.model.faces| && |mesh.model.faces[f]| == 3 && k < 3
  {
    mesh.modelToWorld.position(mesh.model.Vert(mesh.model.Face(f)[k]))
  }

  /** The normal stored for corner `k` of face `f`, moved into the world. */
  function CornerNormal(mesh: Mesh, f: nat, k: nat): Vec3
    requires WellIndexed(mesh.model) && f < |mesh.model.faces| && |mesh.model.faces[f]| == 3 && k < 3
    requires mesh.model.HasNormals()
  {
    mesh.modelToWorld.normal(mesh.model.Vn(mesh.model.NFace(f)[k]))
  }

  /** The texture coordinate stored for corner `k` of face `f`. */
  function CornerTex(mesh: Mesh, f: nat, k: nat): Vec2
    requires WellIndexed(mesh.model) && f < |mesh.model.faces| && |mesh.model.faces[f]| == 3 && k < 3
  {
    mesh.model.Vt(mesh.model.TFace(f)[k])
  }

  /** Face `f` against the ray, before the nearest-so-far and range tests. */
  function FaceHit(mesh: Mesh, ray: Ray, f: nat): Option<Solution>
    requires WellIndexed(mesh.model) && f < |mesh.model.faces| && |mesh.model.faces[f]| == 3
  {
    MollerTrumbore(ray, Corner(mesh, f, 0), Corner(mesh, f, 1), Corner(mesh, f, 2), mesh.culling)
  }

  /** Face `f` passes every test except the nearest-so-far one: a triangle hit with `minT <= t <= maxT`. */
  function Candidate(mesh: Mesh, ray: Ray, minT: real, maxT: real, f: nat): Option<Solution>
    requires WellIndexed(mesh.model) && f < |mesh.model.faces| && |mesh.model.faces[f]| == 3
  {
    var h := FaceHit(mesh, ray, f);
    if h.Some? && minT <= h.value.t <= maxT then h else None
  }

  /** A face whose corners are `a`, `b`, `c` is a candidate exactly when the triangle test on those corners gives an in-range hit. */
  lemma CandidateOfCorners(mesh: Mesh, ray: Ray, minT: real, maxT: real, f: nat, a: Vec3, b: Vec3, c: Vec3, s: Solution)
    requires WellIndexed(mesh.model) && f < |mesh.model.faces| && |mesh.model.faces[f]| == 3
    requires Corner(mesh, f, 0) == a && Corner(mesh, f, 1) == b && Corner(mesh, f, 2) == c
    requires MollerTrumbore(ray, a, b, c, mesh.culling) == Some(s) && minT <= s.t <= maxT
    ensures Candidate(mesh, ray, minT, maxT, f) == Some(s)
  {
  }

  /**
    Every face's candidate in face order; a face that is not a triangle has
    none (the loop stops at it before any test).
   */
  function Candidates(mesh: Mesh, ray: Ray, minT: real, maxT: real): (cs: seq<Option<Solution>>)
    requires WellIndexed(mesh.model)
    ensures |cs| == |mesh.model.faces|
    ensures forall g | 0 <= g < |cs| && |mesh.model.faces[g]| == 3 :: cs[g] == Candidate(mesh, ray, minT, maxT, g)
  {
    seq(|mesh.model.faces|, g requires 0 <= g < |mesh.model.faces| =>
      if |mesh.model.faces[g]| == 3 then Candidate(mesh, ray, minT, maxT, g) else None)
  }

  /**
    The running selection of the face loop over candidates `cs[0 .. n - 1]`:
    a candidate replaces the kept one only when its `t` is strictly smaller
    (`t >= closestT` skips it).
   */
  function Select(cs: seq<Option<Solution>>, n: nat): (b: Option<Best>)
    requires n <= |cs|
    ensures b.Some? ==> b.value.face < n && cs[b.value.face] == Some(b.value.sol)
  {
    if n == 0 then None
    else
      var prev := Select(cs, n - 1);
      var c := cs[n - 1];
      if c.Some? && (prev.None? || c.value.t < prev.value.sol.t) then Some(Best(n - 1, c.value)) else prev
  }

  /** The face the loop holds after faces `0 .. n - 1`. */
  function Nearest(mesh: Mesh, ray: Ray, minT: real, maxT: real, n: nat): (b: Option<Best>)
    requires WellIndexed(mesh.model) && TrianglesBefore(mesh.model, n)
    ensures b.Some? ==> b.value.face < n && |mesh.model.faces[b.value.face]| == 3
    ensures b.Some? ==> Candidate(mesh, ray, minT, maxT, b.value.face) == Some(b.value.sol)
  {
    Select(Candidates(mesh, ray, minT, maxT), n)
  }

  /** Nothing is kept exactly when `cs[0 .. n - 1]` holds no candidate. */
  lemma {:induction false} SelectNoneIff(cs: seq<Option<Solution>>, n: nat)
    requires n <= |cs|
    ensures Select(cs, n).None? <==> forall g | 0 <= g < n :: cs[g].None?
  {
    if n > 0 {
      SelectNoneIff(cs, n - 1);
    }
  }

  /** The kept candidate has the smallest `t` among `cs[0 .. n - 1]`. */
  lemma {:induction false} SelectIsMinimum(cs: seq<Option<Solution>>, n: nat)
    requires n <= |cs| && Select(cs, n).Some?
    ensures forall g | 0 <= g < n && cs[g].Some? :: Select(cs, n).value.sol.t <= cs[g].value.t
  {
    if Select(cs, n - 1).Some? {
      SelectIsMinimum(cs, n - 1);
    } else {
      SelectNoneIff(cs, n - 1);
    }
  }

  /** Ties keep the earlier candidate: every candidate before the kept one has a strictly larger `t`. */
  lemma {:induction false} SelectKeepsEarliest(cs: seq<Option<Solution>>, n: nat)
    requires n <= |cs| && Select(cs, n).Some?
    ensures var b := Select(cs, n).value;
      forall g | 0 <= g < b.face && cs[g].Some? :: b.sol.t < cs[g].value.t
  {
    var prev := Select(cs, n - 1);
    if prev.Some? && Select(cs, n) == prev {
      SelectKeepsEarliest(cs, n - 1);
    } else if prev.Some? {
      SelectIsMinimum(cs, n - 1);
    } else {
      SelectNoneIff(cs, n - 1);
    }
  }

  /** Once something is kept, later candidates only bring the kept `t` closer. */
  lemma {:induction false} SelectNeverIncreases(cs: seq<Option<Solution>>, n: nat, k: nat)
    requires n <= k <= |cs| && Select(cs, n).Some?
    ensures Select(cs, k).Some? && Select(cs, k).value.sol.t <= Select(cs, n).value.sol.t
    decreases k - n
  {
    if n < k {
      SelectNeverIncreases(cs, n, k - 1);
    }
  }

  /** `closestT` for a loop state: no value for the sentinel, else the kept face's `t`. */
  function ClosestT(b: Option<Best>): Option<real> {
    if b.None? then None else Some(b.value.sol.t)
  }

  /** The record written for the kept face (the normal is not normalised, see README). */
  function Record(mesh: Mesh, ray: Ray, b: Best): HitInfo
    requires WellIndexed(mesh.model) && b.face < |mesh.model.faces| && |mesh.model.faces[b.face]| == 3
  {
    var f, t, u, v := b.face, b.sol.t, b.sol.u, b.sol.v;
    var w0 := 1.0 - (u + v);
    var normal :=
      if mesh.model.HasNormals() then Blend3(w0, u, v, CornerNormal(mesh, f, 0), CornerNormal(mesh, f, 1), CornerNormal(mesh, f, 2))
      else Cross(Sub(Corner(mesh, f, 1), Corner(mesh, f, 0)), Sub(Corner(mesh, f, 2), Corner(mesh, f, 0)));
    HitInfo(t, normal, PointAt(ray, t), ray.direction, mesh.base.Shader(),
            Blend2(w0, u, v, CornerTex(mesh, f, 0), CornerTex(mesh, f, 1), CornerTex(mesh, f, 2)))
  }

  /** The caller's `info` after the loop: untouched when no face was kept, else the kept face's record. */
  function Written(mesh: Mesh, ray: Ray, b: Option<Best>, info: HitInfo): HitInfo
    requires WellIndexed(mesh.model)
    requires b.Some? ==> b.value.face < |mesh.model.faces| && |mesh.model.faces[b.value.face]| == 3
  {
    if b.None? then info else Record(mesh, ray, b.value)
  }

  /** What `Mesh::intersect` does, as a function of its inputs. */
  function Intersection(mesh: Mesh, ray: Ray, minT: real, maxT: real, info: HitInfo, mask: IntersectMask): (r: (Outcome, HitInfo))
    requires mesh.base.CheckMask(mask) ==> WellIndexed(mesh.model)
    ensures !mesh.base.CheckMask(mask) ==> r == (Miss, info)
    ensures r.0 == Miss ==> r.1 == info
    ensures r.0.NotTriangular? ==> r.0.face < |mesh.model.faces| && |mesh.model.faces[r.0.face]| != 3
    ensures r.0 == Hit ==> forall f | 0 <= f < |mesh.model.faces| :: |mesh.model.faces[f]| == 3
  {
    if !mesh.base.CheckMask(mask) then (Miss, info)
    else match FirstNonTriangle(mesh.model, 0)
      case Some(f) =>
        (NotTriangular(f), Written(mesh, ray, Nearest(mesh, ray, minT, maxT, f), info))
      case None =>
        var b := Nearest(mesh, ray, minT, maxT, |mesh.model.faces|);
        (if b.None? then Miss else Hit, Written(mesh, ray, b, info))
  }

  /** A face that is not a triangle, after triangles only, is the first such face. */
  lemma {:induction false} FirstNonTriangleAt(m: Model, from: nat, f: nat)
    requires from <= f < |m.faces| && |m.faces[f]| != 3
    requires forall g | from <= g < f :: |m.faces[g]| == 3
    ensures FirstNonTriangle(m, from) == Some(f)
    decreases f - from
  {
    if from < f {
      FirstNonTriangleAt(m, from + 1, f);
    }
  }

  /** A face that is no candidate, or not strictly nearer, leaves the kept face as it was. */
  lemma NearestSkips(mesh: Mesh, ray: Ray, minT: real, maxT: real, f: nat)
    requires WellIndexed(mesh.model) && TrianglesBefore(mesh.model, f + 1)
    requires var c := Candidate(mesh, ray, minT, maxT, f); var b := Nearest(mesh, ray, minT, maxT, f);
      c.None? || (b.Some? && c.value.t >= b.value.sol.t)
    ensures Nearest(mesh, ray, minT, maxT, f + 1) == Nearest(mesh, ray, minT, maxT, f)
  {
  }

  /** A candidate strictly nearer than the kept face, or the first candidate, is kept instead. */
  lemma NearestTakes(mesh: Mesh, ray: Ray, minT: real, maxT: real, f: nat)
    requires WellIndexed(mesh.model) && TrianglesBefore(mesh.model, f + 1)
    requires var c := Candidate(mesh, ray, minT, maxT, f); var b := Nearest(mesh, ray, minT, maxT, f);
      c.Some? && (b.None? || c.value.t < b.value.sol.t)
    ensures Nearest(mesh, ray, minT, maxT, f + 1) == Some(Best(f, Candidate(mesh, ray, minT, maxT, f).value))
  {
  }

  /** A face the loop body skips leaves `closestT` and the caller's record as they were for the faces before it. */
  lemma SkipFace(mesh: Mesh, ray: Ray, minT: real, maxT: real, info: HitInfo, f: nat, closestT: Option<real>, result: HitInfo)
    requires WellIndexed(mesh.model) && TrianglesBefore(mesh.model, f + 1)
    requires closestT == ClosestT(Nearest(mesh, ray, minT, maxT, f))
    requires result == Written(mesh, ray, Nearest(mesh, ray, minT, maxT, f), info)
    requires var h := FaceHit(mesh, ray, f);
      h.None? || (closestT.Some? && h.value.t >= closestT.value) || h.value.t < minT || h.value.t > maxT
    ensures closestT == ClosestT(Nearest(mesh, ray, minT, maxT, f + 1))
    ensures result == Written(mesh, ray, Nearest(mesh, ray, minT, maxT, f + 1), info)
  {
    NearestSkips(mesh, ray, minT, maxT, f);
  }

  /** A face the loop body keeps sets `closestT` to its `t`, and the record is that face's. */
  lemma TakeFace(mesh: Mesh, ray: Ray, minT: real, maxT: real, info: HitInfo, f: nat, closestT: Option<real>, s: Solution)
    requires WellIndexed(mesh.model) && TrianglesBefore(mesh.model, f + 1)
    requires closestT == ClosestT(Nearest(mesh, ray, minT, maxT, f))
    requires FaceHit(mesh, ray, f) == Some(s)
    requires !(closestT.Some? && s.t >= closestT.value) && minT <= s.t <= maxT
    ensures Some(s.t) == ClosestT(Nearest(mesh, ray, minT, maxT, f + 1))
    ensures Record(mesh, ray, Best(f, s)) == Written(mesh, ray, Nearest(mesh, ray, minT, maxT, f + 1), info)
  {
    NearestTakes(mesh, ray, minT, maxT, f);
  }

  /**
    The body of the face loop from the world-space corners to `t`, computed
    as the source does: the determinant test, then the `u` test, then the
    `v` test, each a `continue` in the source and a `None` here. The result
    is `MollerTrumbore` of the corners.
   */
  method TestTriangle(ray: Ray, v0World: Vec3, v1World: Vec3, v2World: Vec3, culling: bool) returns (hit: Option<Solution>)
    ensures hit == MollerTrumbore(ray, v0World, v1World, v2World, culling)
  {
    var v0v1 := Sub(v1World, v0World);
    var v0v2 := Sub(v2World, v0World);
    var pvec := Cross(ray.direction, v0v2);
    var det := Dot(v0v1, pvec);
    if culling {
      if det < Epsilon {
        return None;
      }
    } else {
      if Abs(det) < Epsilon {
        return None;
      }
    }
    // the products with `invDet = 1 / det` of the source are written as divisions by `det`
    var tvec := Sub(ray.origin, v0World);
    var u := Dot(tvec, pvec) / det;
    if u < 0.0 || u > 1.0 {
      return None;
    }
    var qvec := Cross(tvec, v0v1);
    var v := Dot(ray.direction, qvec) / det;
    if v < 0.0 || u + v > 1.0 {
      return None;
    }
    var t := Dot(v0v2, qvec) / det;
    return Some(Solution(t, u, v));
  }

  /**
    The record writes of the loop: overwrite every field of the caller's
    record with the kept face's distance, direction, location, shader,
    blended normal (or face normal) and blended texture coordinate, field
    by field; the result is `Record` of the kept face.
   */
  method WriteHit(mesh: Mesh, ray: Ray, f: nat, s: Solution, info: HitInfo) returns (result: HitInfo)
    requires WellIndexed(mesh.model) && f < |mesh.model.faces| && |mesh.model.faces[f]| == 3
    ensures result == Record(mesh, ray, Best(f, s))
  {
    var model := mesh.model;
    var t, u, v := s.t, s.u, s.v;
    result := info.(hitT := t, inDirection := ray.direction);
    result := result.(location := Add(ray.origin, Scale(t, ray.direction)), shader := mesh.base.Shader());
    if model.HasNormals() {
      var vn0 := mesh.modelToWorld.normal(model.Vn(model.NFace(f)[0]));
      var vn1 := mesh.modelToWorld.normal(model.Vn(model.NFace(f)[1]));
      var vn2 := mesh.modelToWorld.normal(model.Vn(model.NFace(f)[2]));
      result := result.(normal := Blend3(1.0 - (u + v), u, v, vn0, vn1, vn2));
    } else {
      var v0World := mesh.modelToWorld.position(model.Vert(model.Face(f)[0]));
      var v1World := mesh.modelToWorld.position(model.Vert(model.Face(f)[1]));
      var v2World := mesh.modelToWorld.position(model.Vert(model.Face(f)[2]));
      result := result.(normal := Cross(Sub(v1World, v0World), Sub(v2World, v0World)));
    }
    var vt0 := model.Vt(model.TFace(f)[0]);
    var vt1 := model.Vt(model.TFace(f)[1]);
    var vt2 := model.Vt(model.TFace(f)[2]);
    result := result.(texCoords := Blend2(1.0 - (u + v), u, v, vt0, vt1, vt2));
  }

  /**
    `Mesh::intersect`: the mask gate, then the loop over the faces with the
    source's tests in the source's order (the triangle tests in
    `TestTriangle`), writing the caller's `info` (here the returned
    `result`) whenever a face is kept.
   */
  method Intersect(mesh: Mesh, ray: Ray, minT: real, maxT: real, info: HitInfo, mask: IntersectMask)
      returns (outcome: Outcome, result: HitInfo)
    requires mesh.base.CheckMask(mask) ==> WellIndexed(mesh.model)
    ensures (outcome, result) == Intersection(mesh, ray, minT, maxT, info, mask)
  {
    result := info;
    if !mesh.base.CheckMask(mask) {
      return Miss, result;
    }
    var model := mesh.model;
    var closestT: Option<real> := None;
    for f := 0 to model.NFaces()
      invariant TrianglesBefore(model, f)
      invariant closestT == ClosestT(Nearest(mesh, ray, minT, maxT, f))
      invariant result == Written(mesh, ray, Nearest(mesh, ray, minT, maxT, f), info)
    {
      if |model.Face(f)| != 3 {
        FirstNonTriangleAt(model, 0, f);
        return NotTriangular(f), result;
      }
      var v0World := mesh.modelToWorld.position(model.Vert(model.Face(f)[0]));
      var v1World := mesh.modelToWorld.position(model.Vert(model.Face(f)[1]));
      var v2World := mesh.modelToWorld.position(model.Vert(model.Face(f)[2]));
      var hit := TestTriangle(ray, v0World, v1World, v2World, mesh.culling);
      assert hit == FaceHit(mesh, ray, f);
      if hit.None? {
        SkipFace(mesh, ray, minT, maxT, info, f, closestT, result);
        continue;
      }
      var t, u, v := hit.value.t, hit.value.u, hit.value.v;
      if closestT.Some? && t >= closestT.value {
        SkipFace(mesh, ray, minT, maxT, info, f, closestT, result);
        continue;
      }
      if t < minT || t > maxT {
        SkipFace(mesh, ray, minT, maxT, info, f, closestT, result);
        continue;
      }
      TakeFace(mesh, ray, minT, maxT, info, f, closestT, hit.value);
      result := WriteHit(mesh, ray, f, Solution(t, u, v), result);
      closestT := Some(t);
    }
    outcome := if closestT.None? then Miss else Hit;
  }

  /**
    A triangle hit has barycentric coordinates in the triangle, and the
    point `origin + t * direction` is the corners blended with the weights
    `(1 - (u + v), u, v)`, which are non-negative and sum to one.
   */
  lemma HitLiesOnTriangle(ray: Ray, v0: Vec3, v1: Vec3, v2: Vec3, culling: bool)
    requires MollerTrumbore(ray, v0, v1, v2, culling).Some?
    ensures var s := MollerTrumbore(ray, v0, v1, v2, culling).value;
      && 0.0 <= s.u <= 1.0 && 0.0 <= s.v && s.u + s.v <= 1.0
      && 0.0 <= 1.0 - (s.u + s.v) && (1.0 - (s.u + s.v)) + s.u + s.v == 1.0
      && PointAt(ray, s.t) == Blend3(1.0 - (s.u + s.v), s.u, s.v, v0, v1, v2)
  {
    var s := MollerTrumbore(ray, v0, v1, v2, culling).value;
    var e1, e2, tvec := Sub(v1, v0), Sub(v2, v0), Sub(ray.origin, v0);
    Cramer(e1, e2, ray.direction, tvec);
    Rearrange(ray.origin, ray.direction, v0, v1, v2, s.t, s.u, s.v);
  }

  /**
    The converse of `HitLiesOnTriangle`: when the determinant passes the
    culling test and `origin + t * direction` is the corners blended with
    weights `(1-u-v, u, v)` that lie in the triangle, the test returns that
    very `t`, `u` and `v`. So the test misses no point of an accepted
    triangle, and its solution is the only one.
   */
  lemma PointOnTriangleIsHit(ray: Ray, v0: Vec3, v1: Vec3, v2: Vec3, culling: bool, t: real, u: real, v: real)
    requires !Culled(culling, Dot(Sub(v1, v0), Cross(ray.direction, Sub(v2, v0))))
    requires 0.0 <= u && 0.0 <= v && u + v <= 1.0
    requires PointAt(ray, t) == Blend3(1.0 - (u + v), u, v, v0, v1, v2)
    ensures MollerTrumbore(ray, v0, v1, v2, culling) == Some(Solution(t, u, v))
  {
    var e1, e2, tvec := Sub(v1, v0), Sub(v2, v0), Sub(ray.origin, v0);
    Unrearrange(ray.origin, ray.direction, v0, v1, v2, t, u, v);
    CramerUnique(e1, e2, ray.direction, tvec, t, u, v);
  }

  /**
    The two culling policies: with culling a hit needs `det >= 1e-6`,
    without it `|det| >= 1e-6`; on a front-facing triangle (`det >= 1e-6`)
    both policies give the same answer, so culling only removes the other
    triangles.
   */
  lemma CullingPolicy(ray: Ray, v0: Vec3, v1: Vec3, v2: Vec3)
    ensures var det := Dot(Sub(v1, v0), Cross(ray.direction, Sub(v2, v0)));
      && (MollerTrumbore(ray, v0, v1, v2, true).Some? ==> det >= Epsilon)
      && (MollerTrumbore(ray, v0, v1, v2, false).Some? ==> Abs(det) >= Epsilon)
      && (det >= Epsilon ==> MollerTrumbore(ray, v0, v1, v2, true) == MollerTrumbore(ray, v0, v1, v2, false))
      && (det < Epsilon ==> MollerTrumbore(ray, v0, v1, v2, true).None?)
  {
  }

  /**
    A run of the face loop body that reaches the `return`: `e1 e2 tvec pvec
    qvec det` are the intermediate vectors and determinant it computes for
    the triangle `v0 v1 v2`, every test passes, and `s` is what it solves.
   */
  predicate Accepted(ray: Ray, v0: Vec3, v1: Vec3, v2: Vec3, culling: bool,
                     e1: Vec3, e2: Vec3, tvec: Vec3, pvec: Vec3, qvec: Vec3, det: real, s: Solution) {
    && e1 == Sub(v1, v0) && e2 == Sub(v2, v0) && tvec == Sub(ray.origin, v0)
    && pvec == Cross(ray.direction, e2) && qvec == Cross(tvec, e1) && det == Dot(e1, pvec)
    && !Culled(culling, det)
    && s.u == Dot(tvec, pvec) / det && s.v == Dot(ray.direction, qvec) / det && s.t == Dot(e2, qvec) / det
    && 0.0 <= s.u <= 1.0 && 0.0 <= s.v && s.u + s.v <= 1.0
  }

  /** A run whose tests all pass returns its solution. */
  lemma AcceptedHits(ray: Ray, v0: Vec3, v1: Vec3, v2: Vec3, culling: bool,
                     e1: Vec3, e2: Vec3, tvec: Vec3, pvec: Vec3, qvec: Vec3, det: real, s: Solution)
    requires Accepted(ray, v0, v1, v2, culling, e1, e2, tvec, pvec, qvec, det, s)
    ensures MollerTrumbore(ray, v0, v1, v2, culling) == Some(s)
  {
  }

  /** Conversely, every solution returned comes from a run whose tests all pass. */
  lemma HitsAreAccepted(ray: Ray, v0: Vec3, v1: Vec3, v2: Vec3, culling: bool)
    requires MollerTrumbore(ray, v0, v1, v2, culling).Some?
    ensures var e1, e2, tvec := Sub(v1, v0), Sub(v2, v0), Sub(ray.origin, v0);
      var pvec, qvec := Cross(ray.direction, e2), Cross(tvec, e1);
      Accepted(ray, v0, v1, v2, culling, e1, e2, tvec, pvec, qvec, Dot(e1, pvec), MollerTrumbore(ray, v0, v1, v2, culling).value)
  {
  }

  /**
    The kept face is a nearest candidate and, among equally near ones, the
    first: every earlier candidate is strictly farther. No face is kept
    exactly when no face is a candidate.
   */
  lemma NearestIsFirstMinimum(mesh: Mesh, ray: Ray, minT: real, maxT: real, n: nat)
    requires WellIndexed(mesh.model) && TrianglesBefore(mesh.model, n)
    ensures var b := Nearest(mesh, ray, minT, maxT, n);
      && (b.None? <==> forall g | 0 <= g < n :: Candidate(mesh, ray, minT, maxT, g).None?)
      && (b.Some? ==> forall g | 0 <= g < n && Candidate(mesh, ray, minT, maxT, g).Some? ::
            b.value.sol.t <= Candidate(mesh, ray, minT, maxT, g).value.t)
      && (b.Some? ==> forall g | 0 <= g < b.value.face && Candidate(mesh, ray, minT, maxT, g).Some? ::
            b.value.sol.t < Candidate(mesh, ray, minT, maxT, g).value.t)
  {
    var cs := Candidates(mesh, ray, minT, maxT);
    SelectNoneIff(cs, n);
    if Select(cs, n).Some? {
      SelectIsMinimum(cs, n);
      SelectKeepsEarliest(cs, n);
    }
  }

  /** `closestT` never increases: once a face is kept, later faces only bring it closer. */
  lemma ClosestNeverIncreases(mesh: Mesh, ray: Ray, minT: real, maxT: real, n: nat, k: nat)
    requires WellIndexed(mesh.model) && n <= k && TrianglesBefore(mesh.model, k)
    requires Nearest(mesh, ray, minT, maxT, n).Some?
    ensures Nearest(mesh, ray, minT, maxT, k).Some?
    ensures Nearest(mesh, ray, minT, maxT, k).value.sol.t <= Nearest(mesh, ray, minT, maxT, n).value.sol.t
  {
    SelectNeverIncreases(Candidates(mesh, ray, minT, maxT), n, k);
  }

  /** A query whose mask the mesh does not match returns false at once and leaves `info` alone. */
  lemma MaskGate(mesh: Mesh, ray: Ray, minT: real, maxT: real, info: HitInfo, mask: IntersectMask)
    requires !mesh.base.CheckMask(mask)
    ensures Intersection(mesh, ray, minT, maxT, info, mask) == (Miss, info)
  {
  }

  /**
    The exception: `intersect` throws exactly when some face is not a
    triangle, and then at the first such face, after the earlier faces have
    been scanned.
   */
  lemma ErrorAtFirstNonTriangle(mesh: Mesh, ray: Ray, minT: real, maxT: real, info: HitInfo, mask: IntersectMask)
    requires mesh.base.CheckMask(mask) && WellIndexed(mesh.model)
    ensures var o := Intersection(mesh, ray, minT, maxT, info, mask).0;
      && (o.NotTriangular? <==> exists g | 0 <= g < |mesh.model.faces| :: |mesh.model.faces[g]| != 3)
      && (o.NotTriangular? ==> o.face < |mesh.model.faces| && |mesh.model.faces[o.face]| != 3)
      && (o.NotTriangular? ==> forall g | 0 <= g < o.face :: |mesh.model.faces[g]| == 3)
  {
  }

  /**
    On an all-triangle mesh the result is false exactly when no face passed
    every test, and then `info` is unchanged.
   */
  lemma MissIffNoCandidate(mesh: Mesh, ray: Ray, minT: real, maxT: real, info: HitInfo, mask: IntersectMask)
    requires mesh.base.CheckMask(mask) && WellIndexed(mesh.model)
    requires TrianglesBefore(mesh.model, |mesh.model.faces|)
    ensures var (o, r) := Intersection(mesh, ray, minT, maxT, info, mask);
      && (o == Miss <==> forall g | 0 <= g < |mesh.model.faces| :: Candidate(mesh, ray, minT, maxT, g).None?)
      && (o == Miss ==> r == info)
      && (o == Miss || o == Hit)
  {
    NearestIsFirstMinimum(mesh, ray, minT, maxT, |mesh.model.faces|);
  }

  /**
    On a true result the record describes the nearest accepted hit:
    `hitT` in `[minT, maxT]` and no farther than any candidate, the location
    `origin + hitT * direction` inside the kept triangle, the ray's
    direction, the mesh's shader, texture coordinates blended with the
    same weights, and the normal: the corner normals blended with those
    weights when the model has normals, else the face's edge cross product.
   */
  lemma HitRecordContents(mesh: Mesh, ray: Ray, minT: real, maxT: real, info: HitInfo, mask: IntersectMask)
    requires mesh.base.CheckMask(mask) && WellIndexed(mesh.model)
    requires TrianglesBefore(mesh.model, |mesh.model.faces|)
    requires Intersection(mesh, ray, minT, maxT, info, mask).0 == Hit
    ensures var r := Intersection(mesh, ray, minT, maxT, info, mask).1;
      var b := Nearest(mesh, ray, minT, maxT, |mesh.model.faces|).value;
      var f, u, v := b.face, b.sol.u, b.sol.v;
      && minT <= r.hitT <= maxT && r.hitT == b.sol.t
      && (forall g | 0 <= g < |mesh.model.faces| && Candidate(mesh, ray, minT, maxT, g).Some? ::
            r.hitT <= Candidate(mesh, ray, minT, maxT, g).value.t)
      && r.location == PointAt(ray, r.hitT)
      && r.inDirection == ray.direction
      && r.shader == mesh.base.Shader()
      && 0.0 <= u && 0.0 <= v && u + v <= 1.0
      && r.location == Blend3(1.0 - (u + v), u, v, Corner(mesh, f, 0), Corner(mesh, f, 1), Corner(mesh, f, 2))
      && r.texCoords == Blend2(1.0 - (u + v), u, v, CornerTex(mesh, f, 0), CornerTex(mesh, f, 1), CornerTex(mesh, f, 2))
      && (mesh.model.HasNormals() ==>
            r.normal == Blend3(1.0 - (u + v), u, v, CornerNormal(mesh, f, 0), CornerNormal(mesh, f, 1), CornerNormal(mesh, f, 2)))
      && (!mesh.model.HasNormals() ==>
            r.normal == Cross(Sub(Corner(mesh, f, 1), Corner(mesh, f, 0)), Sub(Corner(mesh, f, 2), Corner(mesh, f, 0))))
  {
    var n := |mesh.model.faces|;
    NearestIsFirstMinimum(mesh, ray, minT, maxT, n);
    var b := Nearest(mesh, ray, minT, maxT, n).value;
    HitLiesOnTriangle(ray, Corner(mesh, b.face, 0), Corner(mesh, b.face, 1), Corner(mesh, b.face, 2), mesh.culling);
  }
}
