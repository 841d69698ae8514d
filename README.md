# Ray–object intersection core of ray-tracer-lab, in Dafny

This project models the intersection layer of the C++ ray tracer
ray-tracer-lab, and proves what that layer promises:

- **Visibility masks.** Objects and queries carry 32-bit masks. An object
  takes part in a query only when the two masks share a bit.
- **Triangle meshes.** `Mesh::intersect` runs the Möller–Trumbore
  ray/triangle test on every face. Back faces can be culled. The nearest
  accepted hit within `[minT, maxT]` is kept, and the caller's hit record
  is written field by field for it.
- **Box-accelerated meshes.** `AABBMesh` keeps the world-space
  axis-aligned bounding box of its mesh. Its slab test rejects a ray whose
  parameter interval inside the box is empty. As written it also rejects a
  ray whose interval is a single point (see "## Findings"). Any other ray
  goes on to the mesh test. The box is
  recomputed by a min/max fold over every transformed face corner whenever
  the transform changes.
- **The Wavefront OBJ loader.** `Model`'s constructor reads `v`, `vt`,
  `vn` and `f` records line by line. It turns one-based face indices into
  zero-based ones and keeps three face-index tables in lock step.

The arithmetic is over `real`, and masks are `bv32`.

The modules follow the source files:

- `Masks`: BitMasks.hpp.
- `Renderables`: Renderable.hpp and the HitInfo record.
- `Geometry`: vectors, rays, transforms, and the linear-algebra lemmas
  behind the triangle test.
- `Streams`: the `istringstream` extractions the loader uses.
- `Wavefront`: Model.cpp and Model.hpp.
- `Meshes`: Mesh.hpp.
- `FlatTriangle`: one concrete run of the triangle test.
- `AABBMeshes`: AABBMesh.hpp.

The source is followed in form:

- The two loops of `Mesh::intersect` and `AABBMesh::intersect`, the nested
  loops of `modelToWorld` and the loader's line loop are methods with loops.
  Each loop is proved against a function of its inputs: `Intersection`,
  `BoxedIntersection`, `BoxOf` and `ParseLines`.
- The properties are lemmas about those functions.
- `AABBMesh` is a class whose box is two arrays of length 3, updated in place.

## Model

| member | source | states |
|---|---|---|
| Masks.VisibleShadowDisjoint | BitMasks.hpp:5-6 | the visible and shadow bits AND to zero |
| Masks.DefaultCoversBoth | BitMasks.hpp:10 | the default mask is visible OR shadow and meets each of them |
| Masks.AllIsNeutral | BitMasks.hpp:8 | every mask ANDed with the all-bits mask is itself |
| Renderables.ConstructorKeepsFields | Renderable.hpp:25-39 | `shader()` returns the constructor's pointer, null included; the mask is the one given; `checkMask(q)` holds exactly when `mask & q != 0` |
| Renderables.DefaultMaskPassesBoth | Renderable.hpp:25-27 | an object built without a mask passes visible and shadow queries |
| Renderables.EmptyQueryMatchesNothing | Renderable.hpp:31-34 | `checkMask(0)` is false for every object |
| Renderables.VisibleOnlyCastsNoShadow | Renderable.hpp:31-34 | an object tagged only visible matches visible queries and no shadow query |
| Streams.ExtractChar | Model.cpp:18 | `>> char` skips blanks and stores the first other character, ending just after it; it fails exactly when only blanks are left; the text is kept, and a failed stream is left as it is |
| Streams.ExtractInt | Model.cpp:43 | `>> int` keeps the text; on success the stream advanced and no digit follows the field; a failed field stores 0; a failed stream is left as it is |
| Streams.ExtractReal | Model.cpp:20 | `>> float` keeps the text; on success the stream advanced and no digit follows the field; a failed field stores 0; a failed stream is left as it is |
| Streams.AheadIsSuffix | Model.cpp:15 | the text of a stream from its position on is `u` exactly when the line's suffix from that position is `u` |
| Streams.CharRoundTrip | Model.cpp:18 | wherever a good stream stands, `>> char` after blanks on a character that is not blank stores it and stops right after it |
| Streams.IntTextNumeral | Model.cpp:43 | the printed text of every integer is a sign for negatives followed by digits whose decimal value is its magnitude |
| Streams.NumeralRead | Model.cpp:43 | wherever a good stream stands, `>> int` after blanks on a decimal text of `n` (an optional `-` and digits), followed by no digit, stores `n` and stops right after the text |
| Streams.NumeralReadAsReal | Model.cpp:20 | wherever a good stream stands, `>> float` after blanks on a decimal text of an integer `n`, followed by no digit, point or exponent, stores `n` exactly and stops right after the text |
| Streams.IntTextRoundTrip | Model.cpp:43 | wherever a good stream stands, `>> int` after blanks on the printed text of any integer `n`, followed by no digit, reads `n` and stops right after it |
| Streams.IntTextReadsAsReal | Model.cpp:20 | wherever a good stream stands, `>> float` after blanks on the printed text of any integer `n`, followed by no digit, point or exponent, reads `n` exactly and stops right after it |
| Streams.DecimalAt | Model.cpp:20 | wherever a good stream stands, `>> float` after blanks on `a` digits worth `w`, a point and `b` digits worth `f`, with no exponent after them, reads `w + f / 10^b` and stops after the fraction |
| Streams.NumeralTripleRead | Model.cpp:43 | `>> idx >> trash >> tidx >> trash >> nidx` after blanks on three decimal texts joined by `/`, followed by no digit, stores the three integers and stops right after them |
| Streams.TripleRoundTrip | Model.cpp:43 | the same on the printed reference `a/b/c` of any three integers |
| Streams.PrintedRefsNumeral | Model.cpp:43 | the printed parts of any references are decimal texts of their indices |
| Streams.NumeralRefsChain | Model.cpp:43 | on references that are decimal texts of `ts`, each after a blank, then blanks only, each pass of the loop reads the next reference of `ts` and ends where the next one starts, and the pass after the last fails |
| Streams.ChainTriples | Model.cpp:43 | the `while` loop collects exactly the references its passes read |
| Streams.NumeralRefsRead | Model.cpp:43 | on references that are decimal texts of `ts`, each after a blank, then blanks only, the loop reads exactly `ts` |
| Streams.TriplesRoundTrip | Model.cpp:43 | on the printed references `ts`, each after a blank, then blanks only, the loop reads exactly `ts` |
| Streams.PrintedIntsNumerals | Model.cpp:20 | the printed texts of any integers are decimal texts of them |
| Streams.NumeralsChain | Model.cpp:20 | on decimal texts of `ns`, each after a blank, then nothing or a blank, each `>> float` stores the next integer of `ns` and ends where the next text starts |
| Streams.ChainReals | Model.cpp:20 | the `for` loop's successive extractions store exactly the values of those reads |
| Streams.IntsReadAsReals | Model.cpp:20 | on the printed integers `ns`, each after a blank, then nothing or a blank, `|ns|` reads of `>> float` store exactly `ns` |
| Streams.DanglingExponentFails | Model.cpp:20 | on `1e 2` an exponent mark that no digit follows fails the field, which stores 0 |
| Streams.ReadReals | Model.cpp:20 | the `for` loop stores exactly the `n` values of `n` successive extractions |
| Wavefront.ReadFaceIndices | Model.cpp:38-50 | the inner `while` loop stores, for each triple read before the stream fails, the three indices minus one |
| Wavefront.Load | Model.cpp:13-55 | the line loop builds exactly the tables that `ParseLines` gives |
| Wavefront.ParseLine | Model.cpp:17-54 | one line only appends to the tables: every entry already read is kept, and at most one of the vertex, texture, normal and face tables grows, by at most one entry |
| Wavefront.ParseLines | Model.cpp:13-55 | after any lines the three face tables have equal length |
| Wavefront.PrefixesExclusive | Model.cpp:17-37 | the `v `, `vt `, `vn ` and `f ` prefixes exclude one another |
| Wavefront.VertexLineAppendsOne | Model.cpp:17-22 | a `v ` line appends exactly one vertex and changes nothing else |
| Wavefront.TexCoordAndNormalLinesAppendOne | Model.cpp:23-36 | a `vt ` line appends one texture coordinate, a `vn ` line one normal, and nothing else changes |
| Wavefront.FaceLineAppendsOneOfEach | Model.cpp:37-54 | an `f ` line appends one entry to each face table; the entries have one index per triple, each the file's index minus one; nothing else changes |
| Wavefront.VertexRecord | Model.cpp:17-22 | a `v ` line that gives the vertex `p` appends exactly `p` and changes nothing else |
| Wavefront.TexCoordRecord | Model.cpp:23-29 | a `vt ` line that gives the texture coordinate `p` appends exactly `p` and changes nothing else |
| Wavefront.NormalRecord | Model.cpp:30-36 | a `vn ` line that gives the normal `p` appends exactly `p` and changes nothing else |
| Wavefront.FaceRecord | Model.cpp:37-54 | an `f ` line that gives the references `ts` appends their indices minus one to the three face tables and changes nothing else |
| Wavefront.TagRead | Model.cpp:18-25 | the `>> trash` extractions on a line that starts with a tag of non-blank characters read the tag and stop right after it |
| Wavefront.AfterTagAhead | Model.cpp:18-25 | after the tag, the stream is good and the rest of the line is what follows the tag |
| Wavefront.TagThenBlank | Model.cpp:17-37 | a tag followed by a field that starts with a blank passes the source's prefix test for that tag |
| Wavefront.VertexLineReads | Model.cpp:17-22 | the line `v x y z`, with decimal texts of the integers `ns` and then nothing or a blank, gives the vertex `ns` |
| Wavefront.TexCoordLineReads | Model.cpp:23-29 | the line `vt s t`, with decimal texts of the integers `ns` and then nothing or a blank, gives the texture coordinate `ns` |
| Wavefront.NormalLineReads | Model.cpp:30-36 | the line `vn x y z`, with decimal texts of the integers `ns` and then nothing or a blank, gives the normal `ns` |
| Wavefront.FaceLineReads | Model.cpp:37-50 | the line `f` followed by references that are decimal texts of `ts`, each after a blank, then blanks only, gives back `ts` |
| Wavefront.VertexLineRoundTrip | Model.cpp:17-22 | that `v` line appends exactly the vertex `ns` and changes nothing else |
| Wavefront.TexCoordLineRoundTrip | Model.cpp:23-29 | that `vt` line appends exactly the texture coordinate `ns` and changes nothing else |
| Wavefront.NormalLineRoundTrip | Model.cpp:30-36 | that `vn` line appends exactly the normal `ns` and changes nothing else |
| Wavefront.FaceLineRoundTrip | Model.cpp:37-54 | that `f` line, with at least one reference, appends to the three face tables exactly the indices of `ts` minus one and changes nothing else |
| Wavefront.OneNumeralRef | Model.cpp:37-50 | `f a/b/c` with decimal texts of `v` gives back exactly `[v]` |
| Wavefront.OneReferenceFace | Model.cpp:37-50 | `f a/b/c` printed from any integers gives back exactly `[(a, b, c)]` |
| Wavefront.OtherLinesChangeNothing | Model.cpp:17-54 | a line with any other prefix leaves every table unchanged |
| Wavefront.TableSizes | Model.cpp:13-55 | after any lines, each table has one entry per line of its kind, and the three face tables have equal length |
| Wavefront.LineKeepsLockStep | Model.cpp:37-54 | one more line keeps every face's three index lists of equal length |
| Wavefront.FaceEntriesInLockStep | Model.cpp:43-53 | after any lines, every face's three index lists have equal length |
| Wavefront.AccessorsAfterLoad | Model.cpp:62-72 | `nverts` and `nfaces` count the `v ` and `f ` lines; `hasNormals` holds exactly when some `vn ` line was read |
| Wavefront.VertsFollowRecords | Model.cpp:17-22 | vertex `k` is the vertex written on the `k`-th `v ` line, and there is one per such line |
| Wavefront.TexCoordsFollowRecords | Model.cpp:23-29 | texture coordinate `k` is the one written on the `k`-th `vt ` line, and there is one per such line |
| Wavefront.NormalsFollowRecords | Model.cpp:30-36 | normal `k` is the one written on the `k`-th `vn ` line, and there is one per such line |
| Wavefront.FacesFollowRecords | Model.cpp:37-54 | entry `k` of each of the three face tables is read from the `k`-th `f ` line, and there is one per such line |
| Wavefront.AccessorsReadRecords | Model.cpp:74-96 | `vert(i)`, `vt(i)`, `vn(i)`, `face(i)`, `tface(i)` and `nface(i)` return what the `i`-th line of their kind wrote |
| Meshes.FirstNonTriangle | Mesh.hpp:28-31 | the first face with an index list that is not three long, or none exactly when all are triangles |
| Meshes.TestTriangle | Mesh.hpp:44-69 | the loop body's tests (determinant, then `u`, then `v`) give exactly the Möller–Trumbore solution or a skip |
| Meshes.CullingPolicy | Mesh.hpp:49-57 | culling skips `det < 1e-6`; without culling only `fabs(det) < 1e-6` is skipped; both agree on front-facing triangles |
| Meshes.HitsAreAccepted | Mesh.hpp:44-69 | every returned solution comes from a run in which every test passes, with `0 <= u <= 1`, `v >= 0` and `u + v <= 1` |
| Meshes.HitLiesOnTriangle | Mesh.hpp:60-69 | a hit has weights `(1-u-v, u, v)` that are non-negative and sum to one, and `origin + t * direction` is the corners blended with them |
| Meshes.PointOnTriangleIsHit | Mesh.hpp:44-69 | conversely, when the determinant passes and `origin + t * direction` is the corners blended with weights `(1-u-v, u, v)` inside the triangle, the test returns exactly that `t`, `u` and `v` |
| Meshes.Select | Mesh.hpp:71-97 | the kept entry is an earlier candidate with its own solution |
| Meshes.Nearest | Mesh.hpp:71-97 | the kept face is a triangle before `n`, and its solution is its candidate |
| Meshes.SelectNoneIff | Mesh.hpp:71-97 | nothing is kept exactly when no candidate occurs |
| Meshes.SelectIsMinimum | Mesh.hpp:71-97 | the kept `t` is the least candidate `t` |
| Meshes.SelectKeepsEarliest | Mesh.hpp:71 | on a tie the earlier face stays kept |
| Meshes.SelectNeverIncreases | Mesh.hpp:97 | once a face is kept, the kept `t` never grows |
| Meshes.NearestIsFirstMinimum | Mesh.hpp:71-97 | the reported face has the smallest candidate `t`; every earlier candidate is strictly farther; nothing is kept exactly when there is no candidate |
| Meshes.ClosestNeverIncreases | Mesh.hpp:71-97 | `closestT` never increases over the loop |
| Meshes.WriteHit | Mesh.hpp:75-95 | the record after a kept face holds its `t`, the ray direction, `origin + t * direction`, the shader, the blended normal (or face normal) and the blended texture coordinate |
| Meshes.Intersect | Mesh.hpp:21-105 | the method returns exactly `Intersection`: the mask gate, the error at a non-triangular face, and the nearest-hit record or the untouched `info` |
| Meshes.Intersection | Mesh.hpp:21-105 | a failing mask gives false with `info` untouched; a false result leaves `info` untouched; the error names a face that is not a triangle; a true result comes only from an all-triangle mesh |
| Meshes.MaskGate | Mesh.hpp:23 | a failing mask gives false with `info` unchanged |
| Meshes.ErrorAtFirstNonTriangle | Mesh.hpp:28-31 | the error is raised exactly when some face is not a triangle, at the first such face |
| Meshes.MissIffNoCandidate | Mesh.hpp:100-104 | on an all-triangle mesh the result is false exactly when no face passed every test, and then `info` is unchanged |
| Meshes.HitRecordContents | Mesh.hpp:73-95 | on a true result `hitT` lies in `[minT, maxT]` and is no farther than any candidate; the location is `origin + hitT * direction` inside the kept triangle; the direction and shader are the ray's and the mesh's; the texture coordinate is blended with `(1-u-v, u, v)`; the normal is blended the same way when the model has normals, and is the face normal otherwise |
| FlatTriangle.FlatTriangleHit | Mesh.hpp:44-69 | on the triangle `(0,0,1) (0,1,1) (1,0,1)`, the ray from `(0,0,-1)` along `(0.125, 0.125, 1)` is accepted with `t = 2`, `u = v = 0.25` |
| AABBMeshes.LowerIsLeast | AABBMesh.hpp:56-65 | the folded `min_[i]` is at most every corner coordinate, and is the `FLT_MAX` seed or one of them |
| AABBMeshes.UpperIsGreatest | AABBMesh.hpp:57-66 | the folded `max_[i]` is at least every corner coordinate, and is the `FLT_MIN` seed or one of them |
| AABBMeshes.BoxEncloses | AABBMesh.hpp:55-67 | the recomputed box contains every transformed face corner |
| AABBMeshes.IdentityCornersAreVertices | AABBMesh.hpp:20 | under the identity transform the corners are the model's own vertices |
| AABBMeshes.AABBMesh.constructor | AABBMesh.hpp:17-21 | installs the identity transform, and the box bounds every raw face vertex |
| AABBMeshes.AABBMesh.ModelToWorld | AABBMesh.hpp:50-69 | stores the transform; the new box is the fold of the transformed corners over the seeds and does not depend on the old box |
| AABBMeshes.AABBMesh.FoldFace | AABBMesh.hpp:60-67 | the `v` loop folds the three corners of one face into the box |
| AABBMeshes.AABBMesh.FoldCorner | AABBMesh.hpp:63-66 | the `i` loop folds one corner into each axis |
| AABBMeshes.ClipAxis | AABBMesh.hpp:30-40 | one axis computes `t0` and `t1`, swaps them when `invD < 0` and narrows the interval to exactly the one `Narrow` gives |
| AABBMeshes.AABBMesh.Intersect | AABBMesh.hpp:23-48 | the method returns exactly `BoxedIntersection` under the rejection rule it is given (the source is `RejectTouching`): the mask, the slab test with early exit, then the mesh test; under the corrected rule, on an all-triangle model, the answer and record are exactly the mesh test's |
| AABBMeshes.BoxedIntersection | AABBMesh.hpp:23-48 | the result is either false with `info` untouched or exactly the mesh test's result |
| AABBMeshes.Slab | AABBMesh.hpp:28-44 | after no axis the interval is `[minT, maxT]`; a surviving interval lies inside `[minT, maxT]` and is not rejected by the rule |
| AABBMeshes.Narrow | AABBMesh.hpp:33-40 | one axis narrows the interval to its intersection with `[t0, t1]`: the new bounds are the larger of the two lower ends and the smaller of the two upper ends |
| AABBMeshes.MaskGateBeforeBox | AABBMesh.hpp:25 | a failing mask gives false before the box test or the mesh test |
| AABBMeshes.IntervalOnlyShrinks | AABBMesh.hpp:39-40 | the working interval stays inside `[minT, maxT]` and inside the previous axis's interval |
| AABBMeshes.RejectedStaysRejected | AABBMesh.hpp:42-43 | once an axis rejects, the later axes cannot undo it |
| AABBMeshes.AxisTimesOrdered | AABBMesh.hpp:36-37 | after the swap `t0 <= t1` when `min_[a] <= max_[a]` |
| AABBMeshes.AxisContains | AABBMesh.hpp:33-37 | a point between an axis's two planes has its `t` in `[t0, t1]` |
| AABBMeshes.SlabKeeps | AABBMesh.hpp:29-44 | a point of the ray inside the box with `t` in `[minT, maxT]` is never cut off by the corrected test |
| AABBMeshes.BoxPassDelegates | AABBMesh.hpp:47 | when the box test passes, the result is `Mesh::intersect` with the original `minT` and `maxT`; so a true result implies a true mesh result with the same record |
| AABBMeshes.HitPassesClosedBox | AABBMesh.hpp:29-44 | the ray through any candidate face passes the corrected slab test of a box that encloses the corners |
| AABBMeshes.ClosedBoxKeepsEveryHit | AABBMesh.hpp:23-48 | on an all-triangle mesh, with the corrected rule, any enclosing box gives the same answer and record as the mesh test |
| AABBMeshes.ClosedBoxNeverChangesTheAnswer | AABBMesh.hpp:23-69 | on an all-triangle mesh, with the corrected rule, the box `modelToWorld` computes never changes the mesh test's answer |
| AABBMeshes.FlatMeshHits | Mesh.hpp:21-105 | the mesh test hits the flat triangle with the steep ray |
| AABBMeshes.FlatBox | AABBMesh.hpp:55-67 | the flat triangle's box is `[0,1] x [0,1] x [1,1]` |
| AABBMeshes.FlatSlabRejects | AABBMesh.hpp:42 | the rule as written rejects that ray on the flat `z` axis, where `t0 == t1 == 2` |
| AABBMeshes.FlatBoxRejectsHit | AABBMesh.hpp:42 | as written, `AABBMesh::intersect` returns false on a ray that `Mesh::intersect` hits |

## Left out

- Floating point is not modelled; arithmetic is over `real`:
  - The `1e-6` thresholds are the exact real 0.000001.
  - `FLT_MAX` and `FLT_MIN` are exact reals.
  - The products with `invDet = 1 / det` and `invD = 1 / direction[a]` are written as divisions.
- The slab test requires every ray direction component to be nonzero. The infinities that IEEE division gives for a zero component are not modelled.
- The `FLT_MAX` sentinel of `closestT` is modelled as "no face kept yet" (an `Option`). A hit at exactly `t == FLT_MAX` is not distinguished.
- Meshes.Record: `normalized()` is not applied, so the stored normal is the blended or face normal with its length unchanged. Normalisation needs square roots.
- Meshes.Intersect: requires more than the source reads. When the mask passes it requires, for every triangular face, the first three vertex and texture indices to be in range, and the normal indices too when the model has normals. The source reads vertex indices only of the faces before the first non-triangular one, and texture and normal indices only of a face that passes every test and improves `closestT`. It reads them unchecked, and an index out of range is undefined behaviour. The same requirement is on `Intersection`, `BoxedIntersection` and `AABBMeshes.AABBMesh.Intersect`.
- AABBMeshes.AABBMesh.constructor: requires every face to have at least three vertex indices, all in range, for the same reason.
- AABBMeshes.AABBMesh.ModelToWorld: has the same requirement.
- The GeomUtil.hpp helpers `transformPosition` and `transformNormal` are not part of this model. They are the two functions of a `Transform`. The entity base (Entity.hpp) is not part of this model either; only its transform is kept.
- `Model` is an immutable value after loading, because the source never changes it after the constructor.
- The loader works on a sequence of lines. It leaves out:
  - opening the file;
  - the exception when the file cannot be opened;
  - the `std::cerr` summary;
  - the final empty `getline` at end of file, which is an ordinary blank line here.
- Streams.ExtractReal: accepts the decimal forms `[sign] digits [. digits] [e|E [sign] digits]`. It does not accept hexadecimal floats, `inf` or `nan`, and rounding to float is not modelled.
- Streams.ExtractReal: its contract does not state the value read. Lemmas state it, wherever a good stream stands, for decimal texts of integers (`NumeralReadAsReal`, `IntTextReadsAsReal`) and for `digits . digits` (`DecimalAt`). The signed decimal forms and the exponent forms are stated only by the definition.
- Wavefront.VertexLineReads, TexCoordLineReads and NormalLineReads are stated for integral coordinates only, because that is where `ExtractReal`'s value is stated.
- Streams.ExtractInt: overflow of `int` is not modelled.
- A failed numeric extraction stores 0 in the model. C++11 tells two cases apart:
  - When the text at the field is not a number, `num_get` stores 0, as the model does.
  - When the sentry fails, nothing is stored and the variable keeps its earlier value. The sentry fails when the stream had already failed, or when only blanks are left, as for the third coordinate of `v 1 2`. The loader's `Eigen` vectors are not initialised, so that value is indeterminate.
  This only affects the values stored for malformed `v`, `vt` and `vn` lines. The face loop stops at the failed extraction and stores nothing.
- Streams.ExtractChar: a failed extraction stores a blank in the model, where C++ leaves the variable unchanged. The loader throws that character away.
- main.cpp is not modelled: image I/O, timing, the scanline shuffle, the parallel render loop and the shaders.

## Findings

| source | as written | input that shows it | evidently intended | confidence | as-written member | corrected member |
|---|---|---|---|---|---|---|
| AABBMesh.hpp:42 | the slab test rejects when `maxTtmp <= minTtmp`, so it also rejects an interval that is a single point | the one triangle with corners `(0,0,1) (0,1,1) (1,0,1)` in that order (the vertices `(0,0,1)`, `(1,0,1)`, `(0,1,1)` and the face `f 1 3 2`), whose box is flat on `z`, and the ray from `(0,0,-1)` along `(0.125,0.125,1)` with `minT = 0.001` and `maxT = 1000`. The mesh test hits at `t = 2`, but on the `z` axis `t0 == t1 == 2` and the box test returns false | reject only an empty interval, `maxTtmp < minTtmp`, so that the box never changes the mesh's answer | not executed | AABBMeshes.FlatBoxRejectsHit | AABBMeshes.ClosedBoxNeverChangesTheAnswer |
