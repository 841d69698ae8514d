/**
  A worked run of Möller–Trumbore on one triangle in the plane `z = 1`,
  used as the witness for the bounding-box rejection at AABBMesh.hpp:42.
 */
module FlatTriangle {

  import opened Wrappers
  import opened Geometry
  import opened Meshes

  /**
    Möller–Trumbore on the flat triangle, in the face's corner order: the
    edges `(0, 1, 0)` and `(1, 0, 0)`, `det = 1`, `u = v = 0.25`, `t = 2`.
    The lemmas below each state one intermediate value of that run.
   */
  lemma FlatTriangleHit()
    ensures MollerTrumbore(Ray(Vec3(0.0, 0.0, -1.0), Vec3(0.125, 0.125, 1.0)), Vec3(0.0, 0.0, 1.0), Vec3(0.0, 1.0, 1.0), Vec3(1.0, 0.0, 1.0), true) == Some(Solution(2.0, 0.25, 0.25))
  {
    FlatTriangleAccepted();
    AcceptedHits(Ray(Vec3(0.0, 0.0, -1.0), Vec3(0.125, 0.125, 1.0)), Vec3(0.0, 0.0, 1.0), Vec3(0.0, 1.0, 1.0), Vec3(1.0, 0.0, 1.0), true,
      Vec3(0.0, 1.0, 0.0), Vec3(1.0, 0.0, 0.0), Vec3(0.0, 0.0, -2.0), Vec3(0.0, 1.0, -0.125), Vec3(2.0, 0.0, 0.0),
      1.0, Solution(2.0, 0.25, 0.25));
  }

  lemma FlatTriangleAccepted()
    ensures Accepted(Ray(Vec3(0.0, 0.0, -1.0), Vec3(0.125, 0.125, 1.0)), Vec3(0.0, 0.0, 1.0), Vec3(0.0, 1.0, 1.0), Vec3(1.0, 0.0, 1.0), true,
      Vec3(0.0, 1.0, 0.0), Vec3(1.0, 0.0, 0.0), Vec3(0.0, 0.0, -2.0), Vec3(0.0, 1.0, -0.125), Vec3(2.0, 0.0, 0.0),
      1.0, Solution(2.0, 0.25, 0.25))
  {
    FlatEdge1();
    FlatEdge2();
    FlatOriginOffset();
    FlatPVec();
    FlatQVec();
    FlatDeterminant();
    FlatUCoordinate();
    FlatVCoordinate();
    FlatDistance();
    FlatTests();
  }

  // The edges, `tvec`, `pvec`, `qvec`, the determinant, `u`, `v`, `t` and the three tests of the run.

  lemma FlatEdge1()
    ensures Vec3(0.0, 1.0, 0.0) == Sub(Vec3(0.0, 1.0, 1.0), Vec3(0.0, 0.0, 1.0))
  {
  }

  lemma FlatEdge2()
    ensures Vec3(1.0, 0.0, 0.0) == Sub(Vec3(1.0, 0.0, 1.0), Vec3(0.0, 0.0, 1.0))
  {
  }

  lemma FlatOriginOffset()
    ensures Vec3(0.0, 0.0, -2.0) == Sub(Ray(Vec3(0.0, 0.0, -1.0), Vec3(0.125, 0.125, 1.0)).origin, Vec3(0.0, 0.0, 1.0))
  {
  }

  lemma FlatPVec()
    ensures Vec3(0.0, 1.0, -0.125) == Cross(Ray(Vec3(0.0, 0.0, -1.0), Vec3(0.125, 0.125, 1.0)).direction, Vec3(1.0, 0.0, 0.0))
  {
  }

  lemma FlatQVec()
    ensures Vec3(2.0, 0.0, 0.0) == Cross(Vec3(0.0, 0.0, -2.0), Vec3(0.0, 1.0, 0.0))
  {
  }

  lemma FlatDeterminant()
    ensures 1.0 == Dot(Vec3(0.0, 1.0, 0.0), Vec3(0.0, 1.0, -0.125))
  {
  }

  lemma FlatUCoordinate()
    ensures Solution(2.0, 0.25, 0.25).u == Dot(Vec3(0.0, 0.0, -2.0), Vec3(0.0, 1.0, -0.125)) / 1.0
  {
  }

  lemma FlatVCoordinate()
    ensures Solution(2.0, 0.25, 0.25).v == Dot(Ray(Vec3(0.0, 0.0, -1.0), Vec3(0.125, 0.125, 1.0)).direction, Vec3(2.0, 0.0, 0.0)) / 1.0
  {
  }

  lemma FlatDistance()
    ensures Solution(2.0, 0.25, 0.25).t == Dot(Vec3(1.0, 0.0, 0.0), Vec3(2.0, 0.0, 0.0)) / 1.0
  {
  }

  lemma FlatTests()
    ensures !Culled(true, 1.0) && 0.0 <= Solution(2.0, 0.25, 0.25).u <= 1.0 && 0.0 <= Solution(2.0, 0.25, 0.25).v && Solution(2.0, 0.25, 0.25).u + Solution(2.0, 0.25, 0.25).v <= 1.0
  {
  }
}
