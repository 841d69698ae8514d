/**
  The Wavefront OBJ mesh loader (Model.cpp, Model.hpp): the vertex,
  texture-coordinate and normal tables and the three face-index tables,
  filled in one pass over the lines of the file.
 */
module Wavefront {

  import opened Geometry
  import opened Streams

  /**
    A loaded model. The source's Model fills its six tables in the
    constructor and offers only read accessors afterwards, so after
    loading it is an immutable value.
   */
  datatype Model = Model(
    verts: seq<Vec3>,
    vts: seq<Vec2>,
    vns: seq<Vec3>,
    faces: seq<seq<int>>,
    tfaces: seq<seq<int>>,
    nfaces: seq<seq<int>>)
  {
    function NVerts(): nat { |verts| }

    function NFaces(): nat { |faces| }

    predicate HasNormals() { |vns| > 0 }

    function Vert(i: nat): Vec3
      requires i < |verts|
    {
      verts[i]
    }

    function Vt(i: nat): Vec2
      requires i < |vts|
    {
      vts[i]
    }

    function Vn(i: nat): Vec3
      requires i < |vns|
    {
      vns[i]
    }

    function Face(i: nat): seq<int>
      requires i < |faces|
    {
      faces[i]
    }

    function TFace(i: nat): seq<int>
      requires i < |tfaces|
    {
      tfaces[i]
    }

    function NFace(i: nat): seq<int>
      requires i < |nfaces|
    {
      nfaces[i]
    }
  }

  const Empty: Model := Model([], [], [], [], [], [])

  /** `!line.compare(0, n, prefix)` with `n == |prefix|`. */
  predicate StartsWith(line: string, prefix: string) {
    |prefix| <= |line| && line[..|prefix|] == prefix
  }

  /** The line's stream after `tagLength` extractions of the `char trash`. */
  function AfterTag(line: string, tagLength: nat): (s: Stream)
    ensures s.Wf() && s.text == line
  {
    if tagLength == 0 then Open(line) else ExtractChar(AfterTag(line, tagLength - 1)).rest
  }

  /** The vertex a `v x y z` line gives. */
  function VertexOf(line: string): Vec3 {
    var c := Reals(AfterTag(line, 1), 3);
    Vec3(c[0], c[1], c[2])
  }

  /** The texture coordinate a `vt s t` line gives. */
  function TexCoordOf(line: string): Vec2 {
    var c := Reals(AfterTag(line, 2), 2);
    Vec2(c[0], c[1])
  }

  /** The normal a `vn x y z` line gives. */
  function NormalOf(line: string): Vec3 {
    var c := Reals(AfterTag(line, 2), 3);
    Vec3(c[0], c[1], c[2])
  }

  /** The triples `v/vt/vn` of an `f` line, as written in the file (one-based). */
  function FaceTriples(line: string): seq<(int, int, int)> {
    Triples(AfterTag(line, 1))
  }

  /** The zero-based vertex, texture and normal indices of a list of one-based triples. */
  function VertexIndices(ts: seq<(int, int, int)>): (r: seq<int>)
    ensures |r| == |ts| && forall k | 0 <= k < |ts| :: r[k] == ts[k].0 - 1
  {
    seq(|ts|, k requires 0 <= k < |ts| => ts[k].0 - 1)
  }

  function TexIndices(ts: seq<(int, int, int)>): (r: seq<int>)
    ensures |r| == |ts| && forall k | 0 <= k < |ts| :: r[k] == ts[k].1 - 1
  {
    seq(|ts|, k requires 0 <= k < |ts| => ts[k].1 - 1)
  }

  function NormalIndices(ts: seq<(int, int, int)>): (r: seq<int>)
    ensures |r| == |ts| && forall k | 0 <= k < |ts| :: r[k] == ts[k].2 - 1
  {
    seq(|ts|, k requires 0 <= k < |ts| => ts[k].2 - 1)
  }

  /** The three zero-based index lists an `f` line gives. */
  function FaceOf(line: string): (seq<int>, seq<int>, seq<int>) {
    var ts := FaceTriples(line);
    (VertexIndices(ts), TexIndices(ts), NormalIndices(ts))
  }

  /**
    What one line does to the tables. The source tests `v `, then `vt `,
    and separately `vn `, then `f `; any other line leaves the tables alone.
   */
  function ParseLine(m: Model, line: string): (r: Model)
    ensures m.verts <= r.verts && m.vts <= r.vts && m.vns <= r.vns
    ensures m.faces <= r.faces && m.tfaces <= r.tfaces && m.nfaces <= r.nfaces
    ensures |r.verts| + |r.vts| + |r.vns| + |r.faces| <= |m.verts| + |m.vts| + |m.vns| + |m.faces| + 1
  {
    PrefixesExclusive(line);
    var m1 :=
      if StartsWith(line, "v ") then m.(verts := m.verts + [VertexOf(line)])
      else if StartsWith(line, "vt ") then m.(vts := m.vts + [TexCoordOf(line)])
      else m;
    if StartsWith(line, "vn ") then m1.(vns := m1.vns + [NormalOf(line)])
    else if StartsWith(line, "f ") then
      var (f, tf, nf) := FaceOf(line);
      m1.(faces := m1.faces + [f], tfaces := m1.tfaces + [tf], nfaces := m1.nfaces + [nf])
    else m1
  }

  /** The tables after reading `lines` in order, starting from empty ones. */
  function ParseLines(lines: seq<string>): (r: Model)
    ensures |r.tfaces| == |r.faces| && |r.nfaces| == |r.faces|
    decreases |lines|
  {
    if lines == [] then Empty else ParseLine(ParseLines(lines[..|lines| - 1]), lines[|lines| - 1])
  }

  /** How many of `lines` start with `prefix`. */
  function Count(lines: seq<string>, prefix: string): nat
    decreases |lines|
  {
    if lines == [] then 0
    else Count(lines[..|lines| - 1], prefix) + (if StartsWith(lines[|lines| - 1], prefix) then 1 else 0)
  }

  /**
    The inner loop of the `f` branch: read `idx/tidx/nidx` triples until the
    stream fails, storing each index minus one.
   */
  method ReadFaceIndices(line: string) returns (f: seq<int>, tf: seq<int>, nf: seq<int>)
    ensures f == VertexIndices(FaceTriples(line))
    ensures tf == TexIndices(FaceTriples(line))
    ensures nf == NormalIndices(FaceTriples(line))
  {
    var st := AfterTag(line, 1);
    ghost var done: seq<(int, int, int)> := [];
    f, tf, nf := [], [], [];
    var r := ExtractTriple(st);
    while r.rest.good
      invariant st.Wf() && st.text == line && r == ExtractTriple(st)
      invariant FaceTriples(line) == done + Triples(st)
      invariant f == VertexIndices(done) && tf == TexIndices(done) && nf == NormalIndices(done)
      decreases |line| - st.pos
    {
      var (idx, tidx, nidx) := r.value;
      IndicesAppend(done, idx, tidx, nidx);
      f, tf, nf := f + [idx - 1], tf + [tidx - 1], nf + [nidx - 1];
      Advance(FaceTriples(line), done, st, r);
      done := done + [r.value];
      st := r.rest;
      r := ExtractTriple(st);
    }
    Finish(FaceTriples(line), done, st, r);
  }

  /** One unfolding of `Triples` after a good triple: the triple, then the rest. */
  lemma TriplesStepGood(s: Stream, r: Read<(int, int, int)>)
    requires s.Wf() && r == ExtractTriple(s) && r.rest.good
    ensures Triples(s) == [r.value] + Triples(r.rest)
  {
  }

  /** One unfolding of `Triples` after a failed triple: nothing. */
  lemma TriplesStepFails(s: Stream, r: Read<(int, int, int)>)
    requires s.Wf() && r == ExtractTriple(s) && !r.rest.good
    ensures Triples(s) == []
  {
  }

  /** One more successful triple moves from the unread part to the part read. */
  lemma Advance(all: seq<(int, int, int)>, done: seq<(int, int, int)>, s: Stream, r: Read<(int, int, int)>)
    requires s.Wf() && r == ExtractTriple(s) && r.rest.good
    requires all == done + Triples(s)
    ensures all == (done + [r.value]) + Triples(r.rest)
  {
    TriplesStepGood(s, r);
    ShiftOne(all, done, r.value, Triples(r.rest));
  }

  /** Once a triple fails, the triples read so far are all there are. */
  lemma Finish(all: seq<(int, int, int)>, done: seq<(int, int, int)>, s: Stream, r: Read<(int, int, int)>)
    requires s.Wf() && r == ExtractTriple(s) && !r.rest.good
    requires all == done + Triples(s)
    ensures all == done
  {
    TriplesStepFails(s, r);
    DropEmpty(all, done, Triples(s));
  }

  lemma DropEmpty(all: seq<(int, int, int)>, done: seq<(int, int, int)>, rest: seq<(int, int, int)>)
    requires all == done + rest && rest == []
    ensures all == done
  {
  }

  lemma IndicesAppend(ts: seq<(int, int, int)>, a: int, b: int, c: int)
    ensures VertexIndices(ts + [(a, b, c)]) == VertexIndices(ts) + [a - 1]
    ensures TexIndices(ts + [(a, b, c)]) == TexIndices(ts) + [b - 1]
    ensures NormalIndices(ts + [(a, b, c)]) == NormalIndices(ts) + [c - 1]
  {
  }

  /** The constructor's loop over the lines of the file. */
  method Load(lines: seq<string>) returns (m: Model)
    ensures m == ParseLines(lines)
  {
    var verts: seq<Vec3>, vts: seq<Vec2>, vns: seq<Vec3> := [], [], [];
    var faces: seq<seq<int>>, tfaces: seq<seq<int>>, nfaces: seq<seq<int>> := [], [], [];
    for i := 0 to |lines|
      invariant Model(verts, vts, vns, faces, tfaces, nfaces) == ParseLines(lines[..i])
    {
      var line := lines[i];
      if StartsWith(line, "v ") {
        var c := ReadReals(AfterTag(line, 1), 3);
        verts := verts + [Vec3(c[0], c[1], c[2])];
      } else if StartsWith(line, "vt ") {
        var c := ReadReals(AfterTag(line, 2), 2);
        vts := vts + [Vec2(c[0], c[1])];
      }
      if StartsWith(line, "vn ") {
        var c := ReadReals(AfterTag(line, 2), 3);
        vns := vns + [Vec3(c[0], c[1], c[2])];
      } else if StartsWith(line, "f ") {
        var f, tf, nf := ReadFaceIndices(line);
        faces, tfaces, nfaces := faces + [f], tfaces + [tf], nfaces + [nf];
      }
      ParseLinesStep(lines, i);
    }
    assert lines[..|lines|] == lines;
    m := Model(verts, vts, vns, faces, tfaces, nfaces);
  }

  /** Reading one more line applies `ParseLine` to the tables so far. */
  lemma ParseLinesStep(lines: seq<string>, i: nat)
    requires i < |lines|
    ensures ParseLines(lines[..i + 1]) == ParseLine(ParseLines(lines[..i]), lines[i])
  {
    assert lines[..i + 1][..i] == lines[..i];
  }

  /** The four record prefixes exclude one another. */
  lemma PrefixesExclusive(line: string)
    ensures StartsWith(line, "v ") ==> !StartsWith(line, "vt ") && !StartsWith(line, "vn ") && !StartsWith(line, "f ")
    ensures StartsWith(line, "vt ") ==> !StartsWith(line, "vn ") && !StartsWith(line, "f ")
    ensures StartsWith(line, "vn ") ==> !StartsWith(line, "f ")
  {
    if StartsWith(line, "v ") { assert line[1] == ' '; }
    if StartsWith(line, "vt ") { assert line[1] == 't'; }
    if StartsWith(line, "vn ") { assert line[1] == 'n'; }
  }

  /** A `v ` line appends exactly one vertex and changes nothing else. */
  lemma VertexLineAppendsOne(m: Model, line: string)
    requires StartsWith(line, "v ")
    ensures ParseLine(m, line) == m.(verts := m.verts + [VertexOf(line)])
  {
    PrefixesExclusive(line);
  }

  /** A `vt ` line appends one texture coordinate, a `vn ` line one normal, and nothing else changes. */
  lemma TexCoordAndNormalLinesAppendOne(m: Model, line: string)
    ensures StartsWith(line, "vt ") ==> ParseLine(m, line) == m.(vts := m.vts + [TexCoordOf(line)])
    ensures StartsWith(line, "vn ") ==> ParseLine(m, line) == m.(vns := m.vns + [NormalOf(line)])
  {
    PrefixesExclusive(line);
  }

  /**
    An `f ` line appends one entry to each face table, and the three new
    entries hold the file's one-based indices minus one, one per triple read.
   */
  lemma FaceLineAppendsOneOfEach(m: Model, line: string)
    requires StartsWith(line, "f ")
    ensures var r := ParseLine(m, line); var ts := FaceTriples(line);
      && r.verts == m.verts && r.vts == m.vts && r.vns == m.vns
      && r.faces[..|m.faces|] == m.faces && r.tfaces[..|m.tfaces|] == m.tfaces && r.nfaces[..|m.nfaces|] == m.nfaces
      && |r.faces| == |m.faces| + 1 && |r.tfaces| == |m.tfaces| + 1 && |r.nfaces| == |m.nfaces| + 1
      && |r.faces[|m.faces|]| == |ts| && |r.tfaces[|m.tfaces|]| == |ts| && |r.nfaces[|m.nfaces|]| == |ts|
      && forall k | 0 <= k < |ts| ::
           r.faces[|m.faces|][k] == ts[k].0 - 1 && r.tfaces[|m.tfaces|][k] == ts[k].1 - 1 && r.nfaces[|m.nfaces|][k] == ts[k].2 - 1
  {
    PrefixesExclusive(line);
    assert !StartsWith(line, "v ") && !StartsWith(line, "vt ") && !StartsWith(line, "vn ") by {
      assert line[0] == 'f';
    }
  }

  /** A `v ` line that gives the vertex `p` appends exactly `p`. */
  lemma VertexRecord(m: Model, line: string, p: Vec3)
    requires StartsWith(line, "v ") && VertexOf(line) == p
    ensures ParseLine(m, line) == m.(verts := m.verts + [p])
  {
    VertexLineAppendsOne(m, line);
  }

  /** A `vt ` line that gives the texture coordinate `p` appends exactly `p`. */
  lemma TexCoordRecord(m: Model, line: string, p: Vec2)
    requires StartsWith(line, "vt ") && TexCoordOf(line) == p
    ensures ParseLine(m, line) == m.(vts := m.vts + [p])
  {
    TexCoordAndNormalLinesAppendOne(m, line);
  }

  /** A `vn ` line that gives the normal `p` appends exactly `p`. */
  lemma NormalRecord(m: Model, line: string, p: Vec3)
    requires StartsWith(line, "vn ") && NormalOf(line) == p
    ensures ParseLine(m, line) == m.(vns := m.vns + [p])
  {
    TexCoordAndNormalLinesAppendOne(m, line);
  }

  /** An `f ` line that gives the references `ts` appends their indices minus one to the three face tables. */
  lemma FaceRecord(m: Model, line: string, ts: seq<(int, int, int)>)
    requires StartsWith(line, "f ") && FaceTriples(line) == ts
    ensures ParseLine(m, line) == m.(faces := m.faces + [VertexIndices(ts)],
                                     tfaces := m.tfaces + [TexIndices(ts)],
                                     nfaces := m.nfaces + [NormalIndices(ts)])
  {
    FaceLineAppendsOneOfEach(m, line);
    assert ParseLine(m, line).faces[|m.faces|] == VertexIndices(ts);
    assert ParseLine(m, line).tfaces[|m.tfaces|] == TexIndices(ts);
    assert ParseLine(m, line).nfaces[|m.nfaces|] == NormalIndices(ts);
  }

  /** A comment, group, smoothing or blank line changes none of the tables. */
  lemma OtherLinesChangeNothing(m: Model, line: string)
    requires !StartsWith(line, "v ") && !StartsWith(line, "vt ") && !StartsWith(line, "vn ") && !StartsWith(line, "f ")
    ensures ParseLine(m, line) == m
  {
  }

  /**
    After any sequence of lines every table has one entry per line of its
    kind, so in particular the three face tables have equal length.
   */
  lemma {:induction false} TableSizes(lines: seq<string>)
    ensures var m := ParseLines(lines);
      && |m.verts| == Count(lines, "v ")
      && |m.vts| == Count(lines, "vt ")
      && |m.vns| == Count(lines, "vn ")
      && |m.faces| == Count(lines, "f ")
      && |m.tfaces| == |m.faces| && |m.nfaces| == |m.faces|
    decreases |lines|
  {
    if lines != [] {
      var init, last := lines[..|lines| - 1], lines[|lines| - 1];
      TableSizes(init);
      PrefixesExclusive(last);
      if StartsWith(last, "f ") {
        assert !StartsWith(last, "v ") && !StartsWith(last, "vt ") && !StartsWith(last, "vn ") by {
          assert last[0] == 'f';
        }
      }
    }
  }

  /** Within each stored face the vertex, texture and normal index lists have equal length. */
  lemma {:induction false} FaceEntriesInLockStep(lines: seq<string>)
    ensures InLockStep(ParseLines(lines))
    decreases |lines|
  {
    if lines != [] {
      FaceEntriesInLockStep(lines[..|lines| - 1]);
      LineKeepsLockStep(ParseLines(lines[..|lines| - 1]), lines[|lines| - 1]);
    }
  }

  /** The three face tables have equal length, and so do the three index lists of each face. */
  predicate InLockStep(m: Model) {
    && |m.tfaces| == |m.faces| && |m.nfaces| == |m.faces|
    && forall k | 0 <= k < |m.faces| :: |m.faces[k]| == |m.tfaces[k]| == |m.nfaces[k]|
  }

  /** That property survives one more line. */
  lemma LineKeepsLockStep(m: Model, line: string)
    requires InLockStep(m)
    ensures InLockStep(ParseLine(m, line))
  {
    if StartsWith(line, "f ") {
      FaceLineAppendsOneOfEach(m, line);
    }
  }

  /** The accessors report the table sizes: vertices and faces read, and whether any normal was. */
  lemma AccessorsAfterLoad(lines: seq<string>)
    ensures ParseLines(lines).NVerts() == Count(lines, "v ")
    ensures ParseLines(lines).NFaces() == Count(lines, "f ")
    ensures ParseLines(lines).HasNormals() <==> Count(lines, "vn ") > 0
  {
    TableSizes(lines);
  }

  /** The lines of `lines` that start with `prefix`, in file order. */
  function Records(lines: seq<string>, prefix: string): (r: seq<string>)
    ensures |r| == Count(lines, prefix)
    ensures forall k | 0 <= k < |r| :: StartsWith(r[k], prefix)
    decreases |lines|
  {
    if lines == [] then []
    else Records(lines[..|lines| - 1], prefix) + (if StartsWith(lines[|lines| - 1], prefix) then [lines[|lines| - 1]] else [])
  }

  /** Vertex `k` is the one written on the `k`-th `v ` line. */
  lemma {:induction false} VertsFollowRecords(lines: seq<string>)
    ensures var m := ParseLines(lines); var ls := Records(lines, "v ");
      |m.verts| == |ls| && forall k | 0 <= k < |ls| :: m.verts[k] == VertexOf(ls[k])
    decreases |lines|
  {
    if lines != [] {
      var init, last := lines[..|lines| - 1], lines[|lines| - 1];
      VertsFollowRecords(init);
      if StartsWith(last, "v ") {
        VertexLineAppendsOne(ParseLines(init), last);
      }
    }
  }

  /** Texture coordinate `k` is the one written on the `k`-th `vt ` line. */
  lemma {:induction false} TexCoordsFollowRecords(lines: seq<string>)
    ensures var m := ParseLines(lines); var ls := Records(lines, "vt ");
      |m.vts| == |ls| && forall k | 0 <= k < |ls| :: m.vts[k] == TexCoordOf(ls[k])
    decreases |lines|
  {
    if lines != [] {
      var init, last := lines[..|lines| - 1], lines[|lines| - 1];
      TexCoordsFollowRecords(init);
      PrefixesExclusive(last);
      TexCoordAndNormalLinesAppendOne(ParseLines(init), last);
    }
  }

  /** Normal `k` is the one written on the `k`-th `vn ` line. */
  lemma {:induction false} NormalsFollowRecords(lines: seq<string>)
    ensures var m := ParseLines(lines); var ls := Records(lines, "vn ");
      |m.vns| == |ls| && forall k | 0 <= k < |ls| :: m.vns[k] == NormalOf(ls[k])
    decreases |lines|
  {
    if lines != [] {
      var init, last := lines[..|lines| - 1], lines[|lines| - 1];
      NormalsFollowRecords(init);
      PrefixesExclusive(last);
      TexCoordAndNormalLinesAppendOne(ParseLines(init), last);
    }
  }

  /** Entry `k` of each face table comes from the `k`-th `f ` line. */
  lemma {:induction false} FacesFollowRecords(lines: seq<string>)
    ensures var m := ParseLines(lines); var ls := Records(lines, "f ");
      && |m.faces| == |ls| && |m.tfaces| == |ls| && |m.nfaces| == |ls|
      && forall k | 0 <= k < |ls| ::
           m.faces[k] == FaceOf(ls[k]).0 && m.tfaces[k] == FaceOf(ls[k]).1 && m.nfaces[k] == FaceOf(ls[k]).2
    decreases |lines|
  {
    if lines != [] {
      var init, last := lines[..|lines| - 1], lines[|lines| - 1];
      FacesFollowRecords(init);
      PrefixesExclusive(last);
      if StartsWith(last, "f ") {
        assert !StartsWith(last, "v ") && !StartsWith(last, "vt ") && !StartsWith(last, "vn ") by {
          assert last[0] == 'f';
        }
      }
    }
  }

  /**
    After loading, the indexed accessors return what the file wrote: the
    `i`-th entry of a table is read from the `i`-th line of its kind.
   */
  lemma AccessorsReadRecords(lines: seq<string>, i: nat)
    ensures var m := ParseLines(lines);
      && m.NVerts() == |Records(lines, "v ")| && |m.vts| == |Records(lines, "vt ")|
      && |m.vns| == |Records(lines, "vn ")| && m.NFaces() == |Records(lines, "f ")|
      && (i < m.NVerts() ==> m.Vert(i) == VertexOf(Records(lines, "v ")[i]))
      && (i < |m.vts| ==> m.Vt(i) == TexCoordOf(Records(lines, "vt ")[i]))
      && (i < |m.vns| ==> m.Vn(i) == NormalOf(Records(lines, "vn ")[i]))
      && (i < m.NFaces() ==>
            && m.Face(i) == FaceOf(Records(lines, "f ")[i]).0
            && m.TFace(i) == FaceOf(Records(lines, "f ")[i]).1
            && m.NFace(i) == FaceOf(Records(lines, "f ")[i]).2)
  {
    VertsFollowRecords(lines);
    TexCoordsFollowRecords(lines);
    NormalsFollowRecords(lines);
    FacesFollowRecords(lines);
  }

  /** The `char trash` extractions read the tag of a line that starts with it, and stop right after it. */
  lemma {:induction false} TagRead(line: string, tag: string, rest: string)
    requires line == tag + rest && forall k | 0 <= k < |tag| :: !IsSpace(tag[k])
    ensures AfterTag(line, |tag|) == Stream(line, |tag|, true)
    decreases |tag|
  {
    if tag != [] {
      var n := |tag| - 1;
      var c := tag[n];
      assert line == tag[..n] + ([c] + rest);
      TagRead(line, tag[..n], [c] + rest);
      assert line[n..] == "" + [c] + rest;
      AheadIsSuffix(line, n, "" + [c] + rest);
      CharRoundTrip(Stream(line, n, true), "", c, rest);
    }
  }

  /** The stream of a line after its tag stands right after the tag. */
  lemma AfterTagAhead(line: string, tag: string, rest: string)
    requires line == tag + rest && forall k | 0 <= k < |tag| :: !IsSpace(tag[k])
    ensures AfterTag(line, |tag|) == Stream(line, |tag|, true)
    ensures Ahead(line, |tag|, rest)
  {
    TagRead(line, tag, rest);
    assert line[|tag|..] == rest;
    AheadIsSuffix(line, |tag|, rest);
  }

  /** A tag followed by a field that starts with a blank makes a record line of that tag. */
  lemma TagThenBlank(tag: string, field: string, tail: string)
    requires |field| > 0 && field[0] == ' '
    ensures StartsWith(tag + field + tail, tag + " ")
  {
    assert (tag + field + tail)[..|tag| + 1] == tag + " ";
  }

  /** A line `v x y z` whose coordinates are decimal texts of the integers `ns` gives the vertex `ns`. */
  lemma VertexLineReads(xs: seq<string>, ns: seq<int>, tail: string)
    requires Numerals(xs, ns) && |ns| == 3 && (tail == [] || IsSpace(tail[0]))
    ensures VertexOf("v" + NumeralsText(xs) + tail) == Vec3(ns[0] as real, ns[1] as real, ns[2] as real)
  {
    var line := "v" + NumeralsText(xs) + tail;
    AfterTagAhead(line, "v", NumeralsText(xs) + tail);
    NumeralsChain(Stream(line, 1, true), xs, ns, tail);
    ChainReals(Stream(line, 1, true), xs, ns);
  }

  /** A line `vt s t` whose coordinates are decimal texts of the integers `ns` gives the texture coordinate `ns`. */
  lemma TexCoordLineReads(xs: seq<string>, ns: seq<int>, tail: string)
    requires Numerals(xs, ns) && |ns| == 2 && (tail == [] || IsSpace(tail[0]))
    ensures TexCoordOf("vt" + NumeralsText(xs) + tail) == Vec2(ns[0] as real, ns[1] as real)
  {
    var line := "vt" + NumeralsText(xs) + tail;
    AfterTagAhead(line, "vt", NumeralsText(xs) + tail);
    NumeralsChain(Stream(line, 2, true), xs, ns, tail);
    ChainReals(Stream(line, 2, true), xs, ns);
  }

  /** A line `vn x y z` whose coordinates are decimal texts of the integers `ns` gives the normal `ns`. */
  lemma NormalLineReads(xs: seq<string>, ns: seq<int>, tail: string)
    requires Numerals(xs, ns) && |ns| == 3 && (tail == [] || IsSpace(tail[0]))
    ensures NormalOf("vn" + NumeralsText(xs) + tail) == Vec3(ns[0] as real, ns[1] as real, ns[2] as real)
  {
    var line := "vn" + NumeralsText(xs) + tail;
    AfterTagAhead(line, "vn", NumeralsText(xs) + tail);
    NumeralsChain(Stream(line, 2, true), xs, ns, tail);
    ChainReals(Stream(line, 2, true), xs, ns);
  }

  /** A line `f` followed by references that are decimal texts of `ts`, and blanks, gives back `ts`. */
  lemma FaceLineReads(ps: seq<(string, string, string)>, ts: seq<(int, int, int)>, tail: string)
    requires NumeralRefs(ps, ts) && ps != [] && Blanks(tail)
    ensures FaceTriples("f" + RefsText(ps) + tail) == ts
  {
    var line := "f" + RefsText(ps) + tail;
    AfterTagAhead(line, "f", RefsText(ps) + tail);
    NumeralRefsRead(Stream(line, 1, true), ps, ts, tail);
  }

  /** A vertex line `v x y z` with decimal coordinates appends exactly the vertex `ns` and changes nothing else. */
  lemma VertexLineRoundTrip(m: Model, xs: seq<string>, ns: seq<int>, tail: string)
    requires Numerals(xs, ns) && |ns| == 3 && (tail == [] || IsSpace(tail[0]))
    ensures ParseLine(m, "v" + NumeralsText(xs) + tail) == m.(verts := m.verts + [Vec3(ns[0] as real, ns[1] as real, ns[2] as real)])
  {
    VertexLineReads(xs, ns, tail);
    TagThenBlank("v", NumeralsText(xs), tail);
    VertexRecord(m, "v" + NumeralsText(xs) + tail, Vec3(ns[0] as real, ns[1] as real, ns[2] as real));
  }

  /** A line `vt s t` with decimal coordinates appends exactly the texture coordinate `ns` and changes nothing else. */
  lemma TexCoordLineRoundTrip(m: Model, xs: seq<string>, ns: seq<int>, tail: string)
    requires Numerals(xs, ns) && |ns| == 2 && (tail == [] || IsSpace(tail[0]))
    ensures ParseLine(m, "vt" + NumeralsText(xs) + tail) == m.(vts := m.vts + [Vec2(ns[0] as real, ns[1] as real)])
  {
    TexCoordLineReads(xs, ns, tail);
    TagThenBlank("vt", NumeralsText(xs), tail);
    TexCoordRecord(m, "vt" + NumeralsText(xs) + tail, Vec2(ns[0] as real, ns[1] as real));
  }

  /** A line `vn x y z` with decimal coordinates appends exactly the normal `ns` and changes nothing else. */
  lemma NormalLineRoundTrip(m: Model, xs: seq<string>, ns: seq<int>, tail: string)
    requires Numerals(xs, ns) && |ns| == 3 && (tail == [] || IsSpace(tail[0]))
    ensures ParseLine(m, "vn" + NumeralsText(xs) + tail) == m.(vns := m.vns + [Vec3(ns[0] as real, ns[1] as real, ns[2] as real)])
  {
    NormalLineReads(xs, ns, tail);
    TagThenBlank("vn", NumeralsText(xs), tail);
    NormalRecord(m, "vn" + NumeralsText(xs) + tail, Vec3(ns[0] as real, ns[1] as real, ns[2] as real));
  }

  /**
    A line `f v/vt/vn ...` with decimal references, followed by blanks,
    appends their indices minus one to the three face tables and changes
    nothing else.
   */
  lemma FaceLineRoundTrip(m: Model, ps: seq<(string, string, string)>, ts: seq<(int, int, int)>, tail: string)
    requires NumeralRefs(ps, ts) && ps != [] && Blanks(tail)
    ensures ParseLine(m, "f" + RefsText(ps) + tail) == m.(faces := m.faces + [VertexIndices(ts)],
                                                         tfaces := m.tfaces + [TexIndices(ts)],
                                                         nfaces := m.nfaces + [NormalIndices(ts)])
  {
    FaceLineReads(ps, ts, tail);
    TagThenBlank("f", RefsText(ps), tail);
    FaceRecord(m, "f" + RefsText(ps) + tail, ts);
  }

  /** The single reference `f a/b/c` reads back as `(a, b, c)`. */
  lemma OneReferenceFace(a: int, b: int, c: int)
    ensures FaceTriples("f " + IntText(a) + "/" + IntText(b) + "/" + IntText(c)) == [(a, b, c)]
  {
    IntTextNumeral(a);
    IntTextNumeral(b);
    IntTextNumeral(c);
    OneNumeralRef(IntText(a), IntText(b), IntText(c), (a, b, c));
  }

  /** The single reference `f a/b/c` whose parts are decimal texts of `v` reads back as `v`. */
  lemma OneNumeralRef(a: string, b: string, c: string, v: (int, int, int))
    requires Numeral(a, v.0) && Numeral(b, v.1) && Numeral(c, v.2)
    ensures FaceTriples("f " + a + "/" + b + "/" + c) == [v]
  {
    var ps := [(a, b, c)];
    assert ps[1..] == [];
    assert RefsText(ps) == " " + (a + "/" + b + "/" + c);
    assert "f " + a + "/" + b + "/" + c == "f" + RefsText(ps) + "";
    FaceLineReads(ps, [v], "");
  }
}
