/**
  A model loaded from Wavefront OBJ text: its vertex and normal lists, its
  faces, the twelve triangles of its bounding box, and its ray test.

  The file is handed over as lines already split on spaces: a tag (the
  first piece) and the pieces after it, each classified as a `Number` (a
  piece `double.Parse` accepts), a `Corner` (a piece of the form `a//n`
  with two integers) or any other `Word`.
 */
module ObjModels {
  import opened Wrappers
  import opened Vectors
  import opened Rays
  import opened Triangles
  import opened Faces

  /** The kinds of line the loader knows; every other tag reads as `Unknown` (the source's `na`). */
  datatype LineType = Unknown | V | VN | F

  function LineTypeOf(tag: string): (k: LineType)
    ensures k == V <==> tag == "v"
    ensures k == VN <==> tag == "vn"
    ensures k == F <==> tag == "f"
  {
    if tag == "v" then V
    else if tag == "vn" then VN
    else if tag == "f" then F
    else Unknown
  }

  datatype Token = Number(value: real) | Corner(vertex: int, normal: int) | Word(text: string)

  datatype ObjLine = ObjLine(tag: string, args: seq<Token>)

  /** What the loader has read so far. */
  datatype MeshData = MeshData(vertices: seq<Vector3>, normals: seq<Vector3>, faces: seq<OBJFace>)

  const Empty: MeshData := MeshData([], [], [])

  /** The three coordinates of a `v` or `vn` line, which must all parse as numbers. */
  function ReadVector(args: seq<Token>): (r: Option<Vector3>)
    ensures r.Some? <==> |args| >= 3 && args[0].Number? && args[1].Number? && args[2].Number?
    ensures r.Some? ==> r.value.x == args[0].value && r.value.y == args[1].value && r.value.z == args[2].value
  {
    if |args| >= 3 && args[0].Number? && args[1].Number? && args[2].Number? then
      Some(Vector3(args[0].value, args[1].value, args[2].value))
    else
      None
  }

  /** A face corner `a//n` names the a-th vertex and n-th normal read so far, counting from 1. */
  predicate Resolves(tok: Token, d: MeshData) {
    tok.Corner? && 1 <= tok.vertex <= |d.vertices| && 1 <= tok.normal <= |d.normals|
  }

  predicate FaceResolves(args: seq<Token>, d: MeshData) {
    |args| >= 3 && Resolves(args[0], d) && Resolves(args[1], d) && Resolves(args[2], d)
  }

  /** The face a resolving `f` line adds. */
  function FaceOf(args: seq<Token>, d: MeshData, offset: Vector3, scale: real, material: Material): OBJFace
    requires FaceResolves(args, d)
  {
    MakeFace(d.vertices[args[0].vertex - 1], d.normals[args[0].normal - 1],
             d.vertices[args[1].vertex - 1], d.normals[args[1].normal - 1],
             d.vertices[args[2].vertex - 1], d.normals[args[2].normal - 1],
             offset, scale, material)
  }

  /**
    One pass of the loader's loop. A `v` or `vn` line appends a vector to
    its list, an `f` line appends a face built from earlier vertices and
    normals, and any other line changes nothing. A line the source would
    throw on (a missing or unparsable piece, an index out of range) gives
    `None`.
   */
  function Step(d: MeshData, line: ObjLine, offset: Vector3, scale: real, material: Material): (r: Option<MeshData>)
    ensures LineTypeOf(line.tag) == Unknown ==> r == Some(d)
    ensures LineTypeOf(line.tag) == V ==>
              (r.Some? <==> ReadVector(line.args).Some?) &&
              (r.Some? ==> r.value == d.(vertices := d.vertices + [ReadVector(line.args).value]))
    ensures LineTypeOf(line.tag) == VN ==>
              (r.Some? <==> ReadVector(line.args).Some?) &&
              (r.Some? ==> r.value == d.(normals := d.normals + [ReadVector(line.args).value]))
    ensures LineTypeOf(line.tag) == F ==>
              (r.Some? <==> FaceResolves(line.args, d)) &&
              (r.Some? ==> r.value == d.(faces := d.faces + [FaceOf(line.args, d, offset, scale, material)]))
  {
    match LineTypeOf(line.tag)
    case V =>
      (match ReadVector(line.args)
       case None => None
       case Some(p) => Some(d.(vertices := d.vertices + [p])))
    case VN =>
      (match ReadVector(line.args)
       case None => None
       case Some(p) => Some(d.(normals := d.normals + [p])))
    case F =>
      if FaceResolves(line.args, d) then Some(d.(faces := d.faces + [FaceOf(line.args, d, offset, scale, material)]))
      else None
    case Unknown => Some(d)
  }

  /**
    The loader over the first `n` lines: the data read, or the index of the
    first line on which it throws.
   */
  function Parse(lines: seq<ObjLine>, n: nat, offset: Vector3, scale: real, material: Material): (r: Result<MeshData, nat>)
    requires n <= |lines|
    ensures r.Failure? ==> r.error < n
  {
    if n == 0 then Success(Empty)
    else
      match Parse(lines, n - 1, offset, scale, material)
      case Failure(e) => Failure(e)
      case Success(d) =>
        match Step(d, lines[n - 1], offset, scale, material)
        case None => Failure(n - 1)
        case Some(d') => Success(d')
  }

  /** Lines after a failing one are never read: the first failure is the result. */
  lemma {:induction false} FailureIsFinal(lines: seq<ObjLine>, k: nat, n: nat, offset: Vector3, scale: real, material: Material)
    requires k <= n <= |lines|
    requires Parse(lines, k, offset, scale, material).Failure?
    ensures Parse(lines, n, offset, scale, material) == Parse(lines, k, offset, scale, material)
  {
    if n > k {
      FailureIsFinal(lines, k, n - 1, offset, scale, material);
    }
  }

  /** The failing line is the one whose step fails, on the data read before it. */
  lemma {:induction false} FailureLocated(lines: seq<ObjLine>, n: nat, offset: Vector3, scale: real, material: Material)
    requires n <= |lines|
    requires Parse(lines, n, offset, scale, material).Failure?
    ensures var e := Parse(lines, n, offset, scale, material).error;
            Parse(lines, e, offset, scale, material).Success? &&
            Step(Parse(lines, e, offset, scale, material).value, lines[e], offset, scale, material).None?
  {
    if Parse(lines, n - 1, offset, scale, material).Failure? {
      FailureLocated(lines, n - 1, offset, scale, material);
    }
  }

  /** A successful load succeeds on every prefix, and only ever appends to the three lists. */
  lemma {:induction false} PrefixSucceeds(lines: seq<ObjLine>, k: nat, n: nat, offset: Vector3, scale: real, material: Material)
    requires k <= n <= |lines|
    requires Parse(lines, n, offset, scale, material).Success?
    ensures Parse(lines, k, offset, scale, material).Success?
    ensures var early := Parse(lines, k, offset, scale, material).value;
            var late := Parse(lines, n, offset, scale, material).value;
            early.vertices <= late.vertices && early.normals <= late.normals && early.faces <= late.faces
  {
    if k < n {
      if Parse(lines, n - 1, offset, scale, material).Failure? {
        FailureIsFinal(lines, n - 1, n, offset, scale, material);
      }
      PrefixSucceeds(lines, k, n - 1, offset, scale, material);
    }
  }

  /** The number of lines among the first `n` whose tag is of kind `k`. */
  function CountOf(lines: seq<ObjLine>, n: nat, k: LineType): nat
    requires n <= |lines|
  {
    if n == 0 then 0
    else CountOf(lines, n - 1, k) + (if LineTypeOf(lines[n - 1].tag) == k then 1 else 0)
  }

  /** After a successful load there is one vertex per `v` line, one normal per `vn` line and one face per `f` line. */
  lemma {:induction false} ParseCounts(lines: seq<ObjLine>, n: nat, offset: Vector3, scale: real, material: Material)
    requires n <= |lines|
    requires Parse(lines, n, offset, scale, material).Success?
    ensures var d := Parse(lines, n, offset, scale, material).value;
            |d.vertices| == CountOf(lines, n, V) && |d.normals| == CountOf(lines, n, VN) &&
            |d.faces| == CountOf(lines, n, F)
  {
    if n > 0 {
      PrefixSucceeds(lines, n - 1, n, offset, scale, material);
      ParseCounts(lines, n - 1, offset, scale, material);
    }
  }

  /** A face whose three positions are transformed vertices of `d`, and whose material is `material`. */
  predicate BuiltFrom(f: OBJFace, d: MeshData, offset: Vector3, scale: real, material: Material) {
    var t := GetTriangle(f);
    t.material == material &&
    (exists a :: 0 <= a < |d.vertices| && t.v0 == Add(Scale(scale, d.vertices[a]), offset)) &&
    (exists a :: 0 <= a < |d.vertices| && t.v1 == Add(Scale(scale, d.vertices[a]), offset)) &&
    (exists a :: 0 <= a < |d.vertices| && t.v2 == Add(Scale(scale, d.vertices[a]), offset))
  }

  /** Every face loaded is made of declared vertices, moved and scaled, and carries the model's material. */
  lemma {:induction false} FacesFromVertices(lines: seq<ObjLine>, n: nat, offset: Vector3, scale: real, material: Material)
    requires n <= |lines|
    requires Parse(lines, n, offset, scale, material).Success?
    ensures var d := Parse(lines, n, offset, scale, material).value;
            forall i :: 0 <= i < |d.faces| ==> BuiltFrom(d.faces[i], d, offset, scale, material)
  {
    if n > 0 {
      PrefixSucceeds(lines, n - 1, n, offset, scale, material);
      FacesFromVertices(lines, n - 1, offset, scale, material);
      var prev := Parse(lines, n - 1, offset, scale, material).value;
      var d := Parse(lines, n, offset, scale, material).value;
      forall i | 0 <= i < |d.faces|
        ensures BuiltFrom(d.faces[i], d, offset, scale, material)
      {
        if i < |prev.faces| {
          assert d.faces[i] == prev.faces[i];
          StillBuilt(d.faces[i], prev, d, offset, scale, material);
        } else {
          var args := lines[n - 1].args;
          var t := GetTriangle(d.faces[i]);
          assert t.v0 == Add(Scale(scale, d.vertices[args[0].vertex - 1]), offset);
          assert t.v1 == Add(Scale(scale, d.vertices[args[1].vertex - 1]), offset);
          assert t.v2 == Add(Scale(scale, d.vertices[args[2].vertex - 1]), offset);
        }
      }
    }
  }

  /** A face built from the vertices of `d` is still built from them once more vertices are read. */
  lemma StillBuilt(f: OBJFace, d: MeshData, d': MeshData, offset: Vector3, scale: real, material: Material)
    requires d.vertices <= d'.vertices
    requires BuiltFrom(f, d, offset, scale, material)
    ensures BuiltFrom(f, d', offset, scale, material)
  {
    var t := GetTriangle(f);
    var a0 :| 0 <= a0 < |d.vertices| && t.v0 == Add(Scale(scale, d.vertices[a0]), offset);
    var a1 :| 0 <= a1 < |d.vertices| && t.v1 == Add(Scale(scale, d.vertices[a1]), offset);
    var a2 :| 0 <= a2 < |d.vertices| && t.v2 == Add(Scale(scale, d.vertices[a2]), offset);
    assert d'.vertices[a0] == d.vertices[a0] && d'.vertices[a1] == d.vertices[a1] && d'.vertices[a2] == d.vertices[a2];
  }

  // The bounding box.

  /** The per-face points the bounding box is built from: each face's minimum corner, and nothing else. */
  function MinCorners(faces: seq<OBJFace>): (cs: seq<Vector3>)
    ensures |cs| == |faces|
    ensures forall i :: 0 <= i < |faces| ==> cs[i] == MinCorner(GetTriangle(faces[i]))
  {
    seq(|faces|, i requires 0 <= i < |faces| => MinCorner(GetTriangle(faces[i])))
  }

  /** The per-axis minimum of the points, taken in order as the source's scan does. */
  function Lowest(cs: seq<Vector3>): Vector3
    requires |cs| > 0
  {
    if |cs| == 1 then cs[0] else Lower(Lowest(cs[..|cs| - 1]), cs[|cs| - 1])
  }

  /** One step of the scan for the minimum: each axis drops to `c`'s where `c` is below. */
  function Lower(l: Vector3, c: Vector3): Vector3 {
    Vector3(if c.x < l.x then c.x else l.x, if c.y < l.y then c.y else l.y, if c.z < l.z then c.z else l.z)
  }

  /** The per-axis maximum of the points, taken in order. */
  function Highest(cs: seq<Vector3>): Vector3
    requires |cs| > 0
  {
    if |cs| == 1 then cs[0] else Higher(Highest(cs[..|cs| - 1]), cs[|cs| - 1])
  }

  /** One step of the scan for the maximum. */
  function Higher(h: Vector3, c: Vector3): Vector3 {
    Vector3(if c.x > h.x then c.x else h.x, if c.y > h.y then c.y else h.y, if c.z > h.z then c.z else h.z)
  }

  /** The scans give the per-axis minimum and maximum: bounds of every point, each reached by some point. */
  lemma {:induction false} ExtentsBound(cs: seq<Vector3>)
    requires |cs| > 0
    ensures var lo := Lowest(cs);
            (forall i :: 0 <= i < |cs| ==> lo.x <= cs[i].x && lo.y <= cs[i].y && lo.z <= cs[i].z) &&
            (exists i :: 0 <= i < |cs| && lo.x == cs[i].x) && (exists i :: 0 <= i < |cs| && lo.y == cs[i].y) &&
            (exists i :: 0 <= i < |cs| && lo.z == cs[i].z)
    ensures var hi := Highest(cs);
            (forall i :: 0 <= i < |cs| ==> hi.x >= cs[i].x && hi.y >= cs[i].y && hi.z >= cs[i].z) &&
            (exists i :: 0 <= i < |cs| && hi.x == cs[i].x) && (exists i :: 0 <= i < |cs| && hi.y == cs[i].y) &&
            (exists i :: 0 <= i < |cs| && hi.z == cs[i].z)
  {
    if |cs| > 1 {
      var front := cs[..|cs| - 1];
      ExtentsBound(front);
      assert forall i :: 0 <= i < |front| ==> front[i] == cs[i];
    }
  }

  /** Scanning one more point extends both extents by one step. */
  lemma ExtentsExtend(cs: seq<Vector3>, i: nat)
    requires 1 <= i < |cs|
    ensures Lowest(cs[..i + 1]) == Lower(Lowest(cs[..i]), cs[i])
    ensures Highest(cs[..i + 1]) == Higher(Highest(cs[..i]), cs[i])
  {
    var prefix := cs[..i + 1];
    assert prefix[..|prefix| - 1] == cs[..i];
    assert prefix[|prefix| - 1] == cs[i];
  }

  /** The material of every bounding-box triangle. */
  const BoxMaterial: Material := NoMaterial

  /** A corner of the axis-aligned box spanned by `lo` and `hi`. */
  predicate IsBoxCorner(p: Vector3, lo: Vector3, hi: Vector3) {
    (p.x == lo.x || p.x == hi.x) && (p.y == lo.y || p.y == hi.y) && (p.z == lo.z || p.z == hi.z)
  }

  /** The twelve triangles, two per side, in the source's order: front, back, left, right, top, bottom. */
  function BoxTriangles(lo: Vector3, hi: Vector3): (box: seq<Triangle>)
    ensures |box| == 12
    ensures forall i :: 0 <= i < 12 ==> box[i].material == BoxMaterial
    ensures forall i :: 0 <= i < 12 ==>
              IsBoxCorner(box[i].v0, lo, hi) && IsBoxCorner(box[i].v1, lo, hi) && IsBoxCorner(box[i].v2, lo, hi)
  {
    var m := BoxMaterial;
    [ Triangle(Vector3(lo.x, lo.y, hi.z), Vector3(hi.x, hi.y, hi.z), Vector3(hi.x, lo.y, hi.z), m),
      Triangle(Vector3(lo.x, lo.y, hi.z), Vector3(lo.x, hi.y, hi.z), Vector3(hi.x, hi.y, hi.z), m),
      Triangle(Vector3(hi.x, lo.y, lo.z), Vector3(lo.x, hi.y, lo.z), Vector3(lo.x, lo.y, lo.z), m),
      Triangle(Vector3(hi.x, lo.y, lo.z), Vector3(hi.x, hi.y, lo.z), Vector3(lo.x, hi.y, lo.z), m),
      Triangle(Vector3(lo.x, lo.y, hi.z), Vector3(lo.x, hi.y, lo.z), Vector3(lo.x, lo.y, lo.z), m),
      Triangle(Vector3(lo.x, lo.y, hi.z), Vector3(lo.x, hi.y, hi.z), Vector3(lo.x, hi.y, lo.z), m),
      Triangle(Vector3(hi.x, lo.y, lo.z), Vector3(hi.x, hi.y, hi.z), Vector3(hi.x, lo.y, hi.z), m),
      Triangle(Vector3(hi.x, lo.y, lo.z), Vector3(hi.x, hi.y, lo.z), Vector3(hi.x, hi.y, hi.z), m),
      Triangle(Vector3(lo.x, hi.y, lo.z), Vector3(hi.x, hi.y, hi.z), Vector3(hi.x, hi.y, lo.z), m),
      Triangle(Vector3(lo.x, hi.y, lo.z), Vector3(lo.x, hi.y, hi.z), Vector3(hi.x, hi.y, hi.z), m),
      Triangle(Vector3(lo.x, lo.y, hi.z), Vector3(hi.x, lo.y, lo.z), Vector3(hi.x, lo.y, hi.z), m),
      Triangle(Vector3(lo.x, lo.y, hi.z), Vector3(lo.x, lo.y, lo.z), Vector3(hi.x, lo.y, lo.z), m) ]
  }

  /**
    The bounding box of a list of faces: both its low and its high extents
    come from the faces' minimum corners. A model without faces has no box
    (the source's box then has infinite corners that no ray meets).
   */
  function BoundingBoxOf(faces: seq<OBJFace>): (box: seq<Triangle>)
    ensures |faces| == 0 ==> box == []
    ensures |faces| > 0 ==> box == BoxTriangles(Lowest(MinCorners(faces)), Highest(MinCorners(faces)))
    ensures |faces| > 0 ==>
              forall i :: 0 <= i < |faces| ==>
                var c := MinCorner(GetTriangle(faces[i]));
                var lo := Lowest(MinCorners(faces));
                var hi := Highest(MinCorners(faces));
                lo.x <= c.x <= hi.x && lo.y <= c.y <= hi.y && lo.z <= c.z <= hi.z
  {
    if |faces| == 0 then []
    else
      ExtentsBound(MinCorners(faces));
      BoxTriangles(Lowest(MinCorners(faces)), Highest(MinCorners(faces)))
  }

  /** `boxCollision`: some triangle of the box meets the ray. */
  predicate BoxHit(box: seq<Triangle>, ray: Ray, m: MathLib) {
    exists i :: 0 <= i < |box| && Triangles.Intersect(box[i], ray, m).Some?
  }

  /** A box whose low and high extents coincide is made of point triangles, which no ray meets. */
  lemma {:induction false} PointBoxMissed(c: Vector3, ray: Ray, m: MathLib)
    requires IsSqrt(m.sqrt)
    ensures !BoxHit(BoxTriangles(c, c), ray, m)
  {
    var box := BoxTriangles(c, c);
    forall i | 0 <= i < |box|
      ensures Triangles.Intersect(box[i], ray, m).None?
    {
      var t := box[i];
      assert t.v0 == c && t.v1 == c && t.v2 == c;
      assert Cross(Sub(t.v1, t.v0), Sub(t.v2, t.v0)) == Zero;
      NormalizedIsUnit(Zero, m);
      assert Normal(t, m) == Zero;
    }
  }

  // Shading normals.

  /** The barycentric weight of the hit point that belongs to v0 (`areaPBC / areaABC`). */
  function WeightX(t: Triangle, hit: RayHit): real
    requires AreaABC(t, hit.normal) != 0.0
  {
    Dot(hit.normal, Cross(Sub(t.v1, hit.position), Sub(t.v2, hit.position))) / AreaABC(t, hit.normal)
  }

  /** The barycentric weight of the hit point that belongs to v1 (`areaPCA / areaABC`). */
  function WeightY(t: Triangle, hit: RayHit): real
    requires AreaABC(t, hit.normal) != 0.0
  {
    Dot(hit.normal, Cross(Sub(t.v2, hit.position), Sub(t.v0, hit.position))) / AreaABC(t, hit.normal)
  }

  /** `(1 - x - y) * n0 + x * n1 + y * n2` */
  function Blend(x: real, y: real, n0: Vector3, n1: Vector3, n2: Vector3): Vector3 {
    Add(Add(Scale(1.0 - x - y, n0), Scale(x, n1)), Scale(y, n2))
  }

  /**
    `getVertexNormalHit`: the hit with its normal replaced by a blend of the
    three corner normals, weighted by the barycentric coordinates of the hit
    point. The weights are applied as written, one corner round: the weight
    that belongs to v0 goes to v1's normal, v1's to v2's, and v2's to v0's.
   */
  function VertexNormalHit(face: OBJFace, hit: RayHit): (r: RayHit)
    requires AreaABC(GetTriangle(face), hit.normal) != 0.0
    ensures r.position == hit.position && r.incident == hit.incident
    ensures r.hitTime == hit.hitTime && r.material == hit.material
  {
    var t := GetTriangle(face);
    var x := WeightX(t, hit);
    var y := WeightY(t, hit);
    RayHit(hit.position, Blend(x, y, face.v0.normal, face.v1.normal, face.v2.normal),
           hit.incident, hit.hitTime, hit.material)
  }

  /** At v0 the blended normal is v1's: v0's full weight goes to the next corner. */
  lemma {:induction false} NormalAtV0(face: OBJFace, hit: RayHit)
    requires AreaABC(GetTriangle(face), hit.normal) != 0.0
    requires hit.position == face.v0.vertex
    ensures VertexNormalHit(face, hit).normal == face.v1.normal
  {
    var t := GetTriangle(face);
    var a := AreaABC(t, hit.normal);
    assert Cross(Sub(t.v2, t.v0), Sub(t.v0, t.v0)) == Zero;
    assert WeightY(t, hit) == 0.0;
    assert a / a == 1.0;
    assert WeightX(t, hit) == 1.0;
  }

  /** At v1 the blended normal is v2's. */
  lemma {:induction false} NormalAtV1(face: OBJFace, hit: RayHit)
    requires AreaABC(GetTriangle(face), hit.normal) != 0.0
    requires hit.position == face.v1.vertex
    ensures VertexNormalHit(face, hit).normal == face.v2.normal
  {
    var t := GetTriangle(face);
    var a := AreaABC(t, hit.normal);
    assert Cross(Sub(t.v1, t.v1), Sub(t.v2, t.v1)) == Zero;
    assert WeightX(t, hit) == 0.0;
    assert Cross(Sub(t.v2, t.v1), Sub(t.v0, t.v1)) == Cross(Sub(t.v1, t.v0), Sub(t.v2, t.v0));
    assert a / a == 1.0;
    assert WeightY(t, hit) == 1.0;
  }

  /** At v2 the blended normal is v0's: both named weights vanish there. */
  lemma {:induction false} NormalAtV2(face: OBJFace, hit: RayHit)
    requires AreaABC(GetTriangle(face), hit.normal) != 0.0
    requires hit.position == face.v2.vertex
    ensures VertexNormalHit(face, hit).normal == face.v0.normal
  {
    var t := GetTriangle(face);
    assert Cross(Sub(t.v1, t.v2), Sub(t.v2, t.v2)) == Zero;
    assert WeightX(t, hit) == 0.0;
    assert Cross(Sub(t.v2, t.v2), Sub(t.v0, t.v2)) == Zero;
    assert WeightY(t, hit) == 0.0;
  }

  /** A face whose three corner normals agree keeps that normal everywhere: the weights sum to one. */
  lemma {:induction false} SharedNormalKept(face: OBJFace, hit: RayHit)
    requires AreaABC(GetTriangle(face), hit.normal) != 0.0
    requires face.v0.normal == face.v1.normal == face.v2.normal
    ensures VertexNormalHit(face, hit).normal == face.v0.normal
  {
    var t := GetTriangle(face);
    var x := WeightX(t, hit);
    var y := WeightY(t, hit);
    var n := face.v0.normal;
    WeightsSum(1.0 - x - y, x, y, n.x);
    WeightsSum(1.0 - x - y, x, y, n.y);
    WeightsSum(1.0 - x - y, x, y, n.z);
  }

  lemma WeightsSum(w0: real, w1: real, w2: real, c: real)
    requires w0 + w1 + w2 == 1.0
    ensures w0 * c + w1 * c + w2 * c == c
  {
    assert w0 * c + w1 * c + w2 * c == (w0 + w1 + w2) * c;
  }

  // Ray test.

  /** The model as the scene sees it: its faces, its bounding box and its material. */
  datatype Mesh = Mesh(faces: seq<OBJFace>, box: seq<Triangle>, material: Material)

  /** Each face's triangle tested against the ray, in face order. */
  function FaceHits(faces: seq<OBJFace>, ray: Ray, m: MathLib): (hits: seq<Option<RayHit>>)
    ensures |hits| == |faces|
  {
    seq(|faces|, i requires 0 <= i < |faces| => Triangles.Intersect(GetTriangle(faces[i]), ray, m))
  }

  /** A face the ray hits has a non-zero area along the hit's normal, so its weights are defined. */
  lemma FaceHitArea(face: OBJFace, ray: Ray, m: MathLib)
    requires IsSqrt(m.sqrt)
    requires Triangles.Intersect(GetTriangle(face), ray, m).Some?
    ensures AreaABC(GetTriangle(face), Triangles.Intersect(GetTriangle(face), ray, m).value.normal) != 0.0
  {
    var t := GetTriangle(face);
    assert Normal(t, m) != Zero by {
      assert Dot(Normal(t, m), ray.direction) != 0.0;
    }
    NormalArea(t, m);
  }

  /** The earliest face hit, with its normal blended from the face's corner normals. */
  function ClosestFaceHit(faces: seq<OBJFace>, ray: Ray, m: MathLib): Option<RayHit>
    requires IsSqrt(m.sqrt)
  {
    var hits := FaceHits(faces, ray, m);
    var best := Closest(hits, |hits|);
    if best.None? then None
    else
      var i := best.value;
      FaceHitArea(faces[i], ray, m);
      Some(VertexNormalHit(faces[i], hits[i].value))
  }

  /** `Intersect`: nothing unless the ray meets the bounding box; then the earliest face hit. */
  function MeshIntersect(mesh: Mesh, ray: Ray, m: MathLib): Option<RayHit>
    requires IsSqrt(m.sqrt)
  {
    if !BoxHit(mesh.box, ray, m) then None
    else ClosestFaceHit(mesh.faces, ray, m)
  }

  /**
    What a model's ray test reports: nothing when the box is missed; when it
    is met, a hit exactly when some face is hit; and that hit is the
    earliest face hit (ties to the first face), keeping its position, time
    and material with the blended normal.
   */
  lemma {:induction false} MeshIntersectMeaning(mesh: Mesh, ray: Ray, m: MathLib)
    requires IsSqrt(m.sqrt)
    ensures var h := MeshIntersect(mesh, ray, m);
            (!BoxHit(mesh.box, ray, m) ==> h.None?) &&
            (BoxHit(mesh.box, ray, m) ==>
               (h.None? <==> forall i :: 0 <= i < |mesh.faces| ==> FaceHits(mesh.faces, ray, m)[i].None?))
    ensures var h := MeshIntersect(mesh, ray, m);
            h.Some? ==>
              exists i :: 0 <= i < |mesh.faces| && FaceHits(mesh.faces, ray, m)[i].Some? &&
                h.value == VertexNormalHit(mesh.faces[i], FaceHits(mesh.faces, ray, m)[i].value) &&
                forall j :: 0 <= j < |mesh.faces| && FaceHits(mesh.faces, ray, m)[j].Some? ==>
                  h.value.hitTime <= FaceHits(mesh.faces, ray, m)[j].value.hitTime
  {
    var hits := FaceHits(mesh.faces, ray, m);
    var best := Closest(hits, |hits|);
    ClosestIsEarliest(hits, |hits|);
    if BoxHit(mesh.box, ray, m) && best.Some? {
      var i := best.value;
      FaceHitArea(mesh.faces[i], ray, m);
      var h := VertexNormalHit(mesh.faces[i], hits[i].value);
      assert MeshIntersect(mesh, ray, m) == Some(h);
      assert h.hitTime == hits[i].value.hitTime;
    }
  }

  /** A model with a single face is never hit: its box collapses to that face's minimum corner. */
  lemma {:induction false} SingleFaceInvisible(face: OBJFace, material: Material, ray: Ray, m: MathLib)
    requires IsSqrt(m.sqrt)
    ensures MeshIntersect(Mesh([face], BoundingBoxOf([face]), material), ray, m).None?
  {
    var c := MinCorner(GetTriangle(face));
    assert MinCorners([face]) == [c];
    PointBoxMissed(c, ray, m);
  }

  /**
    The loaded model. Its lists are filled by the constructor's loop and
    then only read.
   */
  class ObjModel {
    var material: Material
    var verticeCoords: seq<Vector3>
    var verticeNormals: seq<Vector3>
    var faces: seq<OBJFace>
    var boundingBox: seq<Triangle>

    function AsMesh(): (mesh: Mesh)
      reads this
      ensures mesh.faces == faces && mesh.box == boundingBox && mesh.material == material
    {
      Mesh(faces, boundingBox, material)
    }

    /**
      Reads the lines in order, appending to the vertex, normal and face
      lists, then builds the bounding box. The source throws on the first
      malformed line, so a load that fails is not a caller's option.
     */
    constructor(lines: seq<ObjLine>, offset: Vector3, scale: real, material: Material)
      requires Parse(lines, |lines|, offset, scale, material).Success?
      ensures this.material == material
      ensures MeshData(verticeCoords, verticeNormals, faces) == Parse(lines, |lines|, offset, scale, material).value
      ensures boundingBox == BoundingBoxOf(faces)
    {
      this.material := material;
      verticeCoords := [];
      verticeNormals := [];
      faces := [];
      boundingBox := [];
      new;
      for i := 0 to |lines|
        invariant this.material == material
        invariant Parse(lines, i, offset, scale, material) == Success(MeshData(verticeCoords, verticeNormals, faces))
      {
        PrefixSucceeds(lines, i + 1, |lines|, offset, scale, material);
        var curLine := lines[i];
        var args := curLine.args;
        match LineTypeOf(curLine.tag)
        case V =>
          verticeCoords := verticeCoords + [Vector3(args[0].value, args[1].value, args[2].value)];
        case VN =>
          verticeNormals := verticeNormals + [Vector3(args[0].value, args[1].value, args[2].value)];
        case F =>
          faces := faces + [MakeFace(verticeCoords[args[0].vertex - 1], verticeNormals[args[0].normal - 1],
                                     verticeCoords[args[1].vertex - 1], verticeNormals[args[1].normal - 1],
                                     verticeCoords[args[2].vertex - 1], verticeNormals[args[2].normal - 1],
                                     offset, scale, material)];
        case Unknown =>
      }
      boundingBox := BoundingBox();
    }

    /**
      `BoundingBox`: one pass over the faces, widening the low and high
      extents with each face's minimum corner. The source starts from
      +/-infinity, which the first face always replaces; here the first
      face's corner is the start.
     */
    method BoundingBox() returns (box: seq<Triangle>)
      ensures box == BoundingBoxOf(faces)
    {
      if |faces| == 0 {
        return [];
      }
      var corners := MinCorners(faces);
      var first := MinValues(GetTriangle(faces[0]));
      var minX, minY, minZ := first.x, first.y, first.z;
      var maxX, maxY, maxZ := first.x, first.y, first.z;
      assert corners[..1] == [first];
      for i := 1 to |faces|
        invariant Vector3(minX, minY, minZ) == Lowest(corners[..i])
        invariant Vector3(maxX, maxY, maxZ) == Highest(corners[..i])
      {
        var cur := MinValues(GetTriangle(faces[i]));
        ExtentsExtend(corners, i);
        if cur.x < minX {
          minX := cur.x;
        }
        if cur.x > maxX {
          maxX := cur.x;
        }
        if cur.y < minY {
          minY := cur.y;
        }
        if cur.y > maxY {
          maxY := cur.y;
        }
        if cur.z < minZ {
          minZ := cur.z;
        }
        if cur.z > maxZ {
          maxZ := cur.z;
        }
      }
      assert corners[..|faces|] == corners;
      box := BoxTriangles(Vector3(minX, minY, minZ), Vector3(maxX, maxY, maxZ));
    }

    /** `boxCollision`: true as soon as one box triangle meets the ray. */
    method BoxCollision(ray: Ray, m: MathLib) returns (hit: bool)
      ensures hit == BoxHit(boundingBox, ray, m)
    {
      for i := 0 to |boundingBox|
        invariant forall k :: 0 <= k < i ==> Triangles.Intersect(boundingBox[k], ray, m).None?
      {
        if Triangles.Intersect(boundingBox[i], ray, m).Some? {
          return true;
        }
      }
      return false;
    }

    /** `Intersect`: the box test, then the closest-hit scan over the faces, then the blended normal. */
    method Intersect(ray: Ray, m: MathLib) returns (h: Option<RayHit>)
      requires IsSqrt(m.sqrt)
      ensures h == MeshIntersect(AsMesh(), ray, m)
    {
      var boundingBoxCollision := BoxCollision(ray, m);
      var closestHit: Option<RayHit> := None;
      var hitFace: nat := 0;
      ghost var hits := FaceHits(faces, ray, m);
      if boundingBoxCollision {
        var closestHitTime := 0.0;
        for i := 0 to |faces|
          invariant closestHit == Kept(hits, i)
          invariant closestHit.Some? ==> closestHitTime == closestHit.value.hitTime
          invariant closestHit.Some? ==> hitFace == Closest(hits, i).value
        {
          var curHit := Triangles.Intersect(GetTriangle(faces[i]), ray, m);
          assert curHit == hits[i];
          ClosestStep(hits, i);
          if curHit.Some? {
            if closestHit.None? || curHit.value.hitTime < closestHitTime {
              closestHitTime := curHit.value.hitTime;
              closestHit := curHit;
              hitFace := i;
            }
          }
        }
      }
      if closestHit.None? {
        assert MeshIntersect(AsMesh(), ray, m) == None;
        return closestHit;
      }
      FaceHitArea(faces[hitFace], ray, m);
      h := Some(VertexNormalHit(faces[hitFace], closestHit.value));
      assert ClosestFaceHit(faces, ray, m) == h;
    }
  }
}
