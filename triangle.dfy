/** A triangle given by three vertices, with its ray test and per-axis extents. */
module Triangles {
  import opened Wrappers
  import opened Vectors
  import opened Rays

  datatype Triangle = Triangle(v0: Vector3, v1: Vector3, v2: Vector3, material: Material)

  /** The tolerance of the barycentric containment test. */
  const Tolerance: real := 0.0001

  /** `((v1 - v0) x (v2 - v0)).Normalized()` */
  function Normal(t: Triangle, m: MathLib): Vector3 {
    Normalized(Cross(Sub(t.v1, t.v0), Sub(t.v2, t.v0)), m)
  }

  /** `normal . ((v1 - v0) x (v2 - v0))`: twice the signed area seen along `normal`. */
  function AreaABC(t: Triangle, normal: Vector3): real {
    Dot(normal, Cross(Sub(t.v1, t.v0), Sub(t.v2, t.v0)))
  }

  predicate WithinTolerance(w: real) {
    -Tolerance <= w <= 1.0 + Tolerance
  }

  /**
    `insideTriangle`: the barycentric weights of `p` all lie within
    [-0.0001, 1.0001]. When the reference area is zero the source divides by
    zero and every comparison with the resulting infinity or NaN fails, so
    the point is rejected.
   */
  predicate InsideTriangle(t: Triangle, p: Vector3, normal: Vector3) {
    var areaABC := AreaABC(t, normal);
    var areaPBC := Dot(normal, Cross(Sub(t.v1, p), Sub(t.v2, p)));
    var areaPCA := Dot(normal, Cross(Sub(t.v2, p), Sub(t.v0, p)));
    if areaABC == 0.0 then false
    else
      var x := areaPBC / areaABC;
      var y := areaPCA / areaABC;
      var z := 1.0 - x - y;
      WithinTolerance(x) && WithinTolerance(y) && WithinTolerance(z)
  }

  /** Each vertex of a triangle whose area is non-zero along `normal` passes the containment test. */
  lemma {:induction false} VerticesInside(t: Triangle, normal: Vector3)
    requires AreaABC(t, normal) != 0.0
    ensures InsideTriangle(t, t.v0, normal)
    ensures InsideTriangle(t, t.v1, normal)
    ensures InsideTriangle(t, t.v2, normal)
  {
    var a := AreaABC(t, normal);
    SelfQuotient(a);
    ZeroQuotient(a);
    DotZero(normal);
    SubSelf(t.v0);
    SubSelf(t.v1);
    SubSelf(t.v2);
    CrossZero(Sub(t.v2, t.v0));
    CrossZero(Sub(t.v2, t.v1));
    CrossZero(Sub(t.v0, t.v2));
    CrossZero(Sub(t.v1, t.v2));
    CrossRotate(t.v0, t.v1, t.v2);
    CornerInside(t, t.v0, normal, a, 0.0);
    CornerInside(t, t.v1, normal, 0.0, a);
    CornerInside(t, t.v2, normal, 0.0, 0.0);
  }

  /** The area spanned from the second corner equals the area spanned from the first. */
  lemma CrossRotate(p0: Vector3, p1: Vector3, p2: Vector3)
    ensures Cross(Sub(p2, p1), Sub(p0, p1)) == Cross(Sub(p1, p0), Sub(p2, p0))
  {
  }

  /** A point whose two sub-areas are each zero or the whole area passes the containment test. */
  lemma CornerInside(t: Triangle, p: Vector3, normal: Vector3, pbc: real, pca: real)
    requires AreaABC(t, normal) != 0.0
    requires pbc == Dot(normal, Cross(Sub(t.v1, p), Sub(t.v2, p)))
    requires pca == Dot(normal, Cross(Sub(t.v2, p), Sub(t.v0, p)))
    requires pbc == 0.0 || pbc == AreaABC(t, normal)
    requires pca == 0.0 || pca == AreaABC(t, normal)
    requires pbc == 0.0 || pca == 0.0
    ensures InsideTriangle(t, p, normal)
  {
    var a := AreaABC(t, normal);
    SelfQuotient(a);
    ZeroQuotient(a);
    assert pbc / a == 0.0 || pbc / a == 1.0;
    assert pca / a == 0.0 || pca / a == 1.0;
  }

  /** The time at which `ray` meets the triangle's plane, `((v0 - origin) . n) / (direction . n)`. */
  function HitTime(t: Triangle, ray: Ray, normal: Vector3): real
    requires Dot(normal, ray.direction) != 0.0
  {
    Dot(Sub(t.v0, ray.origin), normal) / Dot(ray.direction, normal)
  }

  /**
    `Intersect`: a ray parallel to the triangle's plane misses; otherwise the
    ray hits exactly when the plane is ahead of it (positive time) and the
    point where it meets the plane passes the containment test. A hit lies on
    the plane through `v0`, and reports the triangle's normal and material.
   */
  function Intersect(t: Triangle, ray: Ray, m: MathLib): (h: Option<RayHit>)
    ensures Dot(Normal(t, m), ray.direction) == 0.0 ==> h.None?
    ensures Dot(Normal(t, m), ray.direction) != 0.0 ==>
              (h.Some? <==> HitTime(t, ray, Normal(t, m)) > 0.0
                            && InsideTriangle(t, PointAt(ray, HitTime(t, ray, Normal(t, m))), Normal(t, m)))
    ensures h.Some? ==> h.value.hitTime > 0.0 && h.value.position == PointAt(ray, h.value.hitTime)
    ensures h.Some? ==> Dot(Sub(h.value.position, t.v0), h.value.normal) == 0.0
    ensures h.Some? ==> h.value.normal == Normal(t, m) && Dot(h.value.normal, ray.direction) != 0.0
    ensures h.Some? ==> h.value.incident == ray.direction && h.value.material == t.material
  {
    var normal := Normal(t, m);
    if Dot(normal, ray.direction) != 0.0 then
      var hitTime := HitTime(t, ray, normal);
      if hitTime <= 0.0 then None
      else
        var intersect := PointAt(ray, hitTime);
        if InsideTriangle(t, intersect, normal) then
          PlaneTimeOnPlane(ray, t.v0, normal);
          Some(RayHit(intersect, normal, ray.direction, hitTime, t.material))
        else None
    else
      None
  }

  /**
    A triangle whose computed normal is not the zero vector has a non-zero
    area along that normal: the area is then the length of the cross product.
   */
  lemma {:induction false} NormalArea(t: Triangle, m: MathLib)
    requires IsSqrt(m.sqrt)
    requires Normal(t, m) != Zero
    ensures AreaABC(t, Normal(t, m)) > 0.0
  {
    var cross := Cross(Sub(t.v1, t.v0), Sub(t.v2, t.v0));
    NormalizedIsUnit(cross, m);
    NormalizedDotSelf(cross, m);
    LengthZero(cross, m);
  }

  /** The per-axis minimum of the three vertices: below each, and equal to one of them. */
  function MinCorner(t: Triangle): (c: Vector3)
    ensures c.x <= t.v0.x && c.x <= t.v1.x && c.x <= t.v2.x
    ensures c.y <= t.v0.y && c.y <= t.v1.y && c.y <= t.v2.y
    ensures c.z <= t.v0.z && c.z <= t.v1.z && c.z <= t.v2.z
    ensures c.x == t.v0.x || c.x == t.v1.x || c.x == t.v2.x
    ensures c.y == t.v0.y || c.y == t.v1.y || c.y == t.v2.y
    ensures c.z == t.v0.z || c.z == t.v1.z || c.z == t.v2.z
  {
    Vector3(Min(Min(t.v0.x, t.v1.x), t.v2.x), Min(Min(t.v0.y, t.v1.y), t.v2.y), Min(Min(t.v0.z, t.v1.z), t.v2.z))
  }

  /** The per-axis maximum of the three vertices: above each, equal to one of them, and above the minimum. */
  function MaxCorner(t: Triangle): (c: Vector3)
    ensures c.x >= t.v0.x && c.x >= t.v1.x && c.x >= t.v2.x
    ensures c.y >= t.v0.y && c.y >= t.v1.y && c.y >= t.v2.y
    ensures c.z >= t.v0.z && c.z >= t.v1.z && c.z >= t.v2.z
    ensures c.x == t.v0.x || c.x == t.v1.x || c.x == t.v2.x
    ensures c.y == t.v0.y || c.y == t.v1.y || c.y == t.v2.y
    ensures c.z == t.v0.z || c.z == t.v1.z || c.z == t.v2.z
    ensures MinCorner(t).x <= c.x && MinCorner(t).y <= c.y && MinCorner(t).z <= c.z
  {
    Vector3(Max(Max(t.v0.x, t.v1.x), t.v2.x), Max(Max(t.v0.y, t.v1.y), t.v2.y), Max(Max(t.v0.z, t.v1.z), t.v2.z))
  }

  function Min(a: real, b: real): real {
    if a < b then a else b
  }

  function Max(a: real, b: real): real {
    if a > b then a else b
  }

  /**
    `getMinValues`: one pass over the list [v0, v1, v2], lowering X, Y and Z
    whenever a vertex is below them. The source starts from +infinity, which
    the first vertex always replaces; here the first vertex is the start.
   */
  method MinValues(t: Triangle) returns (r: Vector3)
    ensures r == MinCorner(t)
  {
    var vertices := [t.v0, t.v1, t.v2];
    var X, Y, Z := vertices[0].x, vertices[0].y, vertices[0].z;
    for i := 1 to |vertices|
      invariant forall k :: 0 <= k < i ==> X <= vertices[k].x && Y <= vertices[k].y && Z <= vertices[k].z
      invariant exists k :: 0 <= k < i && X == vertices[k].x
      invariant exists k :: 0 <= k < i && Y == vertices[k].y
      invariant exists k :: 0 <= k < i && Z == vertices[k].z
    {
      var vertex := vertices[i];
      if vertex.x < X {
        X := vertex.x;
      }
      if vertex.y < Y {
        Y := vertex.y;
      }
      if vertex.z < Z {
        Z := vertex.z;
      }
    }
    assert vertices[0] == t.v0 && vertices[1] == t.v1 && vertices[2] == t.v2;
    r := Vector3(X, Y, Z);
  }

  /** `getMaxValues`: the same pass, raising X, Y and Z from -infinity. */
  method MaxValues(t: Triangle) returns (r: Vector3)
    ensures r == MaxCorner(t)
  {
    var vertices := [t.v0, t.v1, t.v2];
    var X, Y, Z := vertices[0].x, vertices[0].y, vertices[0].z;
    for i := 1 to |vertices|
      invariant forall k :: 0 <= k < i ==> X >= vertices[k].x && Y >= vertices[k].y && Z >= vertices[k].z
      invariant exists k :: 0 <= k < i && X == vertices[k].x
      invariant exists k :: 0 <= k < i && Y == vertices[k].y
      invariant exists k :: 0 <= k < i && Z == vertices[k].z
    {
      var vertex := vertices[i];
      if vertex.x > X {
        X := vertex.x;
      }
      if vertex.y > Y {
        Y := vertex.y;
      }
      if vertex.z > Z {
        Z := vertex.z;
      }
    }
    assert vertices[0] == t.v0 && vertices[1] == t.v1 && vertices[2] == t.v2;
    r := Vector3(X, Y, Z);
  }
}
