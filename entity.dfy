/**
  The kinds of object a scene holds. Each answers a ray with its nearest hit
  ahead, or nothing, and carries one material.
 */
module Entities {
  import opened Wrappers
  import opened Vectors
  import opened Rays
  import Spheres
  import Planes
  import Triangles
  import ObjModels

  datatype Entity =
    | SphereEntity(sphere: Spheres.Sphere)
    | PlaneEntity(plane: Planes.Plane)
    | TriangleEntity(triangle: Triangles.Triangle)
    | MeshEntity(mesh: ObjModels.Mesh)

  /** The entity's `Material` property. */
  function MaterialOf(e: Entity): Material {
    match e
    case SphereEntity(s) => s.material
    case PlaneEntity(p) => p.material
    case TriangleEntity(t) => t.material
    case MeshEntity(mesh) => mesh.material
  }

  /**
    The entity's `Intersect`. Whatever the kind, a hit lies strictly ahead of
    the ray's origin, at the point the ray reaches at the hit's time, and
    records the ray's direction as its incident vector.
   */
  function Intersect(e: Entity, ray: Ray, m: MathLib): (h: Option<RayHit>)
    requires IsSqrt(m.sqrt)
    ensures h.Some? ==> h.value.hitTime > 0.0 && h.value.position == PointAt(ray, h.value.hitTime)
    ensures h.Some? ==> h.value.incident == ray.direction
  {
    match e
    case SphereEntity(s) => Spheres.Intersect(s, ray, m)
    case PlaneEntity(p) => Planes.Intersect(p, ray)
    case TriangleEntity(t) => Triangles.Intersect(t, ray, m)
    case MeshEntity(mesh) =>
      ObjModels.MeshIntersectMeaning(mesh, ray, m);
      ObjModels.MeshIntersect(mesh, ray, m)
  }
}
