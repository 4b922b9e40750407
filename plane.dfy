/** An infinite plane: a point on it, the direction it faces, and a material. */
module Planes {
  import opened Wrappers
  import opened Vectors
  import opened Rays

  datatype Plane = Plane(center: Vector3, normal: Vector3, material: Material)

  /**
    The constructor: the stored normal is the argument normalized, so a
    non-zero argument gives a unit normal pointing the same way.
   */
  function MakePlane(center: Vector3, normal: Vector3, material: Material, m: MathLib): (p: Plane)
    requires IsSqrt(m.sqrt)
    ensures p.center == center && p.material == material
    ensures normal != Zero ==> Dot(p.normal, p.normal) == 1.0 && Dot(p.normal, normal) == Length(normal, m)
    ensures normal == Zero ==> p.normal == Zero
  {
    var unit := Normalized(normal, m);
    NormalizedIsUnit(normal, m);
    NormalizedDotSelf(normal, m);
    Plane(center, unit, material)
  }

  /**
    A ray parallel to the plane misses it; otherwise it hits exactly when the
    hit time is positive. A hit lies on the plane at that time along the ray
    and reports the stored normal, from whichever side the ray comes.
   */
  function Intersect(p: Plane, ray: Ray): (h: Option<RayHit>)
    ensures Dot(p.normal, ray.direction) == 0.0 ==> h.None?
    ensures Dot(p.normal, ray.direction) != 0.0 ==>
              (h.Some? <==> Dot(Sub(p.center, ray.origin), p.normal) / Dot(ray.direction, p.normal) > 0.0)
    ensures h.Some? ==> h.value.hitTime > 0.0 && h.value.position == PointAt(ray, h.value.hitTime)
    ensures h.Some? ==> Dot(Sub(h.value.position, p.center), p.normal) == 0.0
    ensures h.Some? ==> h.value.normal == p.normal && h.value.incident == ray.direction && h.value.material == p.material
  {
    if Dot(p.normal, ray.direction) != 0.0 then
      var hitTime := Dot(Sub(p.center, ray.origin), p.normal) / Dot(ray.direction, p.normal);
      if hitTime <= 0.0 then None
      else
        PlaneTimeOnPlane(ray, p.center, p.normal);
        Some(RayHit(PointAt(ray, hitTime), p.normal, ray.direction, hitTime, p.material))
    else
      None
  }
}
