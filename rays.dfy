/**
  Rays, materials, point lights and ray-hit records, and the closest-hit
  selection that the scene's entity loop and the mesh's face loop share.
 */
module Rays {
  import opened Wrappers
  import opened Vectors
  import Colors

  datatype Ray = Ray(origin: Vector3, direction: Vector3)

  datatype MaterialType = NA | Diffuse | Reflective | Refractive

  datatype Material = Material(kind: MaterialType, color: Colors.Color, refractiveIndex: real)

  /**
    `new Material(MaterialType.NA)`, the material of bounding-box triangles;
    only its type is ever read.
   */
  const NoMaterial: Material := Material(NA, Colors.Black, 1.0)

  datatype PointLight = PointLight(position: Vector3, color: Colors.Color)

  /** What an intersection reports; the source's `null` is `None`. */
  datatype RayHit = RayHit(position: Vector3, normal: Vector3, incident: Vector3, hitTime: real, material: Material)

  /** `origin + t * direction` */
  function PointAt(ray: Ray, t: real): Vector3 {
    Add(ray.origin, Scale(t, ray.direction))
  }

  /**
    The time at which `ray` meets the plane through `c` with normal `n`,
    `((c - origin) . n) / (direction . n)`, gives a point on that plane.
   */
  lemma {:induction false} PlaneTimeOnPlane(ray: Ray, c: Vector3, n: Vector3)
    requires Dot(ray.direction, n) != 0.0
    ensures Dot(Sub(PointAt(ray, Dot(Sub(c, ray.origin), n) / Dot(ray.direction, n)), c), n) == 0.0
  {
    var dn := Dot(ray.direction, n);
    var t := Dot(Sub(c, ray.origin), n) / dn;
    assert t * dn == Dot(Sub(c, ray.origin), n);
    calc {
      Dot(Sub(PointAt(ray, t), c), n);
      Dot(Sub(ray.origin, c), n) + t * dn;
      Dot(Sub(ray.origin, c), n) + Dot(Sub(c, ray.origin), n);
      0.0;
    }
  }

  /**
    The scan `if (hit != null && hit.HitTime < closestHitTime) { keep it }`
    over the first `n` hits, starting from "nothing kept yet" (the source's
    +infinity): the index of the hit kept, if any.
   */
  function Closest(hits: seq<Option<RayHit>>, n: nat): (best: Option<nat>)
    requires n <= |hits|
    ensures best.Some? ==> best.value < n && hits[best.value].Some?
  {
    if n == 0 then None
    else
      var prev := Closest(hits, n - 1);
      var cur := hits[n - 1];
      if cur.Some? && (prev.None? || cur.value.hitTime < hits[prev.value].value.hitTime) then Some(n - 1)
      else prev
  }

  /**
    What the scan keeps: nothing exactly when there is no hit; otherwise a
    hit with the smallest time of all, and, as the comparison is strict,
    strictly earlier than every hit before it, so of several hits at the
    same time the first is kept.
   */
  lemma {:induction false} ClosestIsEarliest(hits: seq<Option<RayHit>>, n: nat)
    requires n <= |hits|
    ensures Closest(hits, n).None? <==> forall i :: 0 <= i < n ==> hits[i].None?
    ensures Closest(hits, n).Some? ==>
              forall i :: 0 <= i < n && hits[i].Some? ==>
                hits[Closest(hits, n).value].value.hitTime <= hits[i].value.hitTime
    ensures Closest(hits, n).Some? ==>
              forall i :: 0 <= i < Closest(hits, n).value && hits[i].Some? ==>
                hits[Closest(hits, n).value].value.hitTime < hits[i].value.hitTime
  {
    if n > 0 {
      ClosestIsEarliest(hits, n - 1);
    }
  }

  /** One more pass of the scan: the new hit is kept exactly when it is strictly earlier than the one kept so far. */
  lemma ClosestStep(hits: seq<Option<RayHit>>, i: nat)
    requires i < |hits|
    ensures var prev := Closest(hits, i);
            Closest(hits, i + 1) ==
              if hits[i].Some? && (prev.None? || hits[i].value.hitTime < hits[prev.value].value.hitTime) then Some(i)
              else prev
  {
  }

  /** The hit the scan has kept after the first `n` hits, if any. */
  function Kept(hits: seq<Option<RayHit>>, n: nat): Option<RayHit>
    requires n <= |hits|
  {
    var best := Closest(hits, n);
    if best.Some? then hits[best.value] else None
  }
}
