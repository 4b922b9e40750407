/** A sphere given by its centre and radius, and its ray test. */
module Spheres {
  import opened Wrappers
  import opened Vectors
  import opened Rays

  datatype Sphere = Sphere(center: Vector3, radius: real, material: Material)

  /** `p` lies on the surface: |p - center|^2 = radius^2. */
  predicate OnSphere(s: Sphere, p: Vector3) {
    Dot(Sub(p, s.center), Sub(p, s.center)) == s.radius * s.radius
  }

  /** The coefficients a, b, c of the quadratic a t^2 + b t + c in the hit time, and its discriminant. */
  function CoefA(ray: Ray): real {
    Dot(ray.direction, ray.direction)
  }

  function CoefB(s: Sphere, ray: Ray): real {
    2.0 * Dot(Sub(ray.origin, s.center), ray.direction)
  }

  function CoefC(s: Sphere, ray: Ray): real {
    var oc := Sub(ray.origin, s.center);
    Dot(oc, oc) - s.radius * s.radius
  }

  function Discriminant(s: Sphere, ray: Ray): real {
    var b := CoefB(s, ray);
    b * b - 4.0 * CoefA(ray) * CoefC(s, ray)
  }

  /** The point at time `t` is on the sphere exactly when `t` is a root of the quadratic. */
  lemma {:induction false} OnSphereAt(s: Sphere, ray: Ray, t: real)
    ensures OnSphere(s, PointAt(ray, t)) <==> CoefA(ray) * t * t + CoefB(s, ray) * t + CoefC(s, ray) == 0.0
  {
    var oc := Sub(ray.origin, s.center);
    var offset := Sub(PointAt(ray, t), s.center);
    SquaredDistanceAt(s, ray, t);
    ShiftConstant(Dot(offset, offset), CoefA(ray), CoefB(s, ray), Dot(oc, oc), s.radius * s.radius, t);
  }

  /** The squared distance from the centre at time `t` is a t^2 + b t + |origin - center|^2. */
  lemma SquaredDistanceAt(s: Sphere, ray: Ray, t: real)
    ensures var oc := Sub(ray.origin, s.center);
      var offset := Sub(PointAt(ray, t), s.center);
      Dot(offset, offset) == CoefA(ray) * t * t + CoefB(s, ray) * t + Dot(oc, oc)
  {
    OffsetAlongRay(s, ray, t);
    DotAlongLine(Sub(ray.origin, s.center), ray.direction, t);
  }

  lemma OffsetAlongRay(s: Sphere, ray: Ray, t: real)
    ensures Sub(PointAt(ray, t), s.center) == Add(Sub(ray.origin, s.center), Scale(t, ray.direction))
  {
  }

  /** x = a t^2 + b t + k equals r exactly when a t^2 + b t + (k - r) is zero. */
  lemma ShiftConstant(x: real, a: real, b: real, k: real, r: real, t: real)
    requires x == a * t * t + b * t + k
    ensures x == r <==> a * t * t + b * t + (k - r) == 0.0
  {
  }

  /** 4a (a t^2 + b t + c) = (2 a t + b)^2 - (b^2 - 4 a c) */
  lemma CompleteSquare(a: real, b: real, c: real, t: real)
    ensures 4.0 * a * (a * t * t + b * t + c) == (2.0 * a * t + b) * (2.0 * a * t + b) - (b * b - 4.0 * a * c)
  {
  }

  /** Every root is one of the two the quadratic formula gives. */
  lemma {:induction false} RootsAreFormula(a: real, b: real, c: real, sq: real, t: real)
    requires a > 0.0 && sq * sq == b * b - 4.0 * a * c
    requires a * t * t + b * t + c == 0.0
    ensures t == (-b - sq) / (2.0 * a) || t == (-b + sq) / (2.0 * a)
  {
    CompleteSquare(a, b, c, t);
    assert (2.0 * a * t + b) * (2.0 * a * t + b) == sq * sq;
    SquaresEqual(2.0 * a * t + b, sq);
  }

  /** Both values the quadratic formula gives are roots. */
  lemma {:induction false} FormulaIsRoot(a: real, b: real, c: real, sq: real, t: real)
    requires a > 0.0 && sq * sq == b * b - 4.0 * a * c
    requires t == (-b - sq) / (2.0 * a) || t == (-b + sq) / (2.0 * a)
    ensures a * t * t + b * t + c == 0.0
  {
    CompleteSquare(a, b, c, t);
    var f := a * t * t + b * t + c;
    assert 2.0 * a * t + b == sq || 2.0 * a * t + b == -sq;
    assert (2.0 * a * t + b) * (2.0 * a * t + b) == sq * sq;
    assert 4.0 * a * f == 0.0;
    if f != 0.0 {
      ProductNonZero(4.0 * a, f);
    }
  }

  /** A negative discriminant leaves the quadratic without roots. */
  lemma {:induction false} NoRealRoot(a: real, b: real, c: real, t: real)
    requires a > 0.0 && b * b - 4.0 * a * c < 0.0
    ensures a * t * t + b * t + c != 0.0
  {
    CompleteSquare(a, b, c, t);
    var u := 2.0 * a * t + b;
    assert u * u >= 0.0 by {
      if u < 0.0 {
        assert u * u == (-u) * (-u);
      }
    }
  }

  /**
    A ray with zero direction (a = 0) has b = 0 and a zero discriminant, so
    both root tests fail; a ray with any other direction has a > 0.
   */
  lemma DirectionCoefficient(s: Sphere, ray: Ray, m: MathLib)
    requires IsSqrt(m.sqrt)
    ensures ray.direction == Zero ==> CoefB(s, ray) == 0.0 && Discriminant(s, ray) == 0.0 && m.sqrt(0.0) == 0.0
    ensures ray.direction != Zero ==> CoefA(ray) > 0.0
  {
    DotSelf(ray.direction);
    SqrtOfZero(m);
    if ray.direction == Zero {
      ZeroDirection(s, ray);
    }
  }

  lemma ZeroDirection(s: Sphere, ray: Ray)
    requires ray.direction == Zero
    ensures CoefA(ray) == 0.0 && CoefB(s, ray) == 0.0 && Discriminant(s, ray) == 0.0
  {
    ZeroDirectionA(ray);
    ZeroDirectionB(s, ray);
    ZeroCoefficients(s, ray);
  }

  lemma ZeroDirectionA(ray: Ray)
    requires ray.direction == Zero
    ensures CoefA(ray) == 0.0
  {
  }

  lemma ZeroDirectionB(s: Sphere, ray: Ray)
    requires ray.direction == Zero
    ensures CoefB(s, ray) == 0.0
  {
  }

  lemma ZeroCoefficients(s: Sphere, ray: Ray)
    requires CoefA(ray) == 0.0 && CoefB(s, ray) == 0.0
    ensures Discriminant(s, ray) == 0.0
  {
  }

  /**
    `Intersect`: no hit when the discriminant is negative. Otherwise the hit
    time is (-b - sqrt(D)) / 2a when that numerator is positive, else
    (-b + sqrt(D)) / 2a when that one is, else there is no hit. A hit lies
    on the sphere ahead of the origin; the normal is the normalized offset
    from the centre.
   */
  function Intersect(s: Sphere, ray: Ray, m: MathLib): (h: Option<RayHit>)
    requires IsSqrt(m.sqrt)
    ensures Discriminant(s, ray) < 0.0 ==> h.None?
    ensures h.Some? ==> h.value.hitTime > 0.0 && h.value.position == PointAt(ray, h.value.hitTime)
    ensures h.Some? ==> OnSphere(s, h.value.position)
    ensures h.Some? ==> h.value.normal == Normalized(Sub(h.value.position, s.center), m)
    ensures h.Some? ==> h.value.incident == ray.direction && h.value.material == s.material
  {
    var b := CoefB(s, ray);
    var discrim := Discriminant(s, ray);
    if discrim < 0.0 then
      NoHitAhead(s, ray, m);
      None
    else
      var sq := m.sqrt(discrim);
      if -b - sq > 0.0 then
        NearRoot(s, ray, m);
        Some(HitAt(s, ray, (-b - sq) / (2.0 * CoefA(ray)), m))
      else if -b + sq > 0.0 then
        FarRoot(s, ray, m);
        Some(HitAt(s, ray, (-b + sq) / (2.0 * CoefA(ray)), m))
      else
        NoHitAhead(s, ray, m);
        None
  }

  /**
    A hit is the nearest point ahead of the origin where the ray meets the
    sphere, and a ray with a direction that reports no hit meets the sphere
    nowhere ahead of its origin.
   */
  lemma {:induction false} IntersectIsNearest(s: Sphere, ray: Ray, m: MathLib)
    requires IsSqrt(m.sqrt)
    ensures Intersect(s, ray, m).Some? ==>
      forall t :: t > 0.0 && OnSphere(s, PointAt(ray, t)) ==> Intersect(s, ray, m).value.hitTime <= t
    ensures Intersect(s, ray, m).None? && ray.direction != Zero ==>
      forall t :: t > 0.0 ==> !OnSphere(s, PointAt(ray, t))
  {
    var b := CoefB(s, ray);
    var discrim := Discriminant(s, ray);
    if discrim < 0.0 {
      NoHitAhead(s, ray, m);
    } else {
      var sq := m.sqrt(discrim);
      if -b - sq > 0.0 {
        NearRoot(s, ray, m);
      } else if -b + sq > 0.0 {
        FarRoot(s, ray, m);
      } else {
        NoHitAhead(s, ray, m);
      }
    }
  }

  /** The hit record at time `t`: the point, its normalized offset from the centre, the ray's direction. */
  function HitAt(s: Sphere, ray: Ray, t: real, m: MathLib): RayHit {
    var hitPos := PointAt(ray, t);
    RayHit(hitPos, Normalized(Sub(hitPos, s.center), m), ray.direction, t, s.material)
  }

  /** When -b - sqrt(D) > 0 its root is positive, on the sphere, and no later than any other positive root. */
  lemma {:induction false} NearRoot(s: Sphere, ray: Ray, m: MathLib)
    requires IsSqrt(m.sqrt) && Discriminant(s, ray) >= 0.0
    requires -CoefB(s, ray) - m.sqrt(Discriminant(s, ray)) > 0.0
    ensures CoefA(ray) > 0.0
    ensures var t0 := (-CoefB(s, ray) - m.sqrt(Discriminant(s, ray))) / (2.0 * CoefA(ray));
      t0 > 0.0 && OnSphere(s, PointAt(ray, t0)) &&
      forall t :: t > 0.0 && OnSphere(s, PointAt(ray, t)) ==> t0 <= t
  {
    RootSetup(s, ray, m);
    var sq := m.sqrt(Discriminant(s, ray));
    RootAhead(s, ray, m, -CoefB(s, ray) - sq);
    forall t | t > 0.0 && OnSphere(s, PointAt(ray, t))
      ensures (-CoefB(s, ray) - sq) / (2.0 * CoefA(ray)) <= t
    {
      NearRootFirst(s, ray, m, t);
    }
  }

  /** When only -b + sqrt(D) > 0 its root is positive, on the sphere, and the only positive root. */
  lemma {:induction false} FarRoot(s: Sphere, ray: Ray, m: MathLib)
    requires IsSqrt(m.sqrt) && Discriminant(s, ray) >= 0.0
    requires -CoefB(s, ray) - m.sqrt(Discriminant(s, ray)) <= 0.0
    requires -CoefB(s, ray) + m.sqrt(Discriminant(s, ray)) > 0.0
    ensures CoefA(ray) > 0.0
    ensures var t1 := (-CoefB(s, ray) + m.sqrt(Discriminant(s, ray))) / (2.0 * CoefA(ray));
      t1 > 0.0 && OnSphere(s, PointAt(ray, t1)) &&
      forall t :: t > 0.0 && OnSphere(s, PointAt(ray, t)) ==> t1 <= t
  {
    RootSetup(s, ray, m);
    var sq := m.sqrt(Discriminant(s, ray));
    RootAhead(s, ray, m, -CoefB(s, ray) + sq);
    forall t | t > 0.0 && OnSphere(s, PointAt(ray, t))
      ensures (-CoefB(s, ray) + sq) / (2.0 * CoefA(ray)) <= t
    {
      FarRootOnly(s, ray, m, t);
    }
  }

  /** A positive root numerator means the ray moves (a > 0), and sqrt(D) is the discriminant's root. */
  lemma RootSetup(s: Sphere, ray: Ray, m: MathLib)
    requires IsSqrt(m.sqrt) && Discriminant(s, ray) >= 0.0
    requires -CoefB(s, ray) - m.sqrt(Discriminant(s, ray)) > 0.0 ||
             -CoefB(s, ray) + m.sqrt(Discriminant(s, ray)) > 0.0
    ensures CoefA(ray) > 0.0
    ensures var sq := m.sqrt(Discriminant(s, ray));
      sq >= 0.0 && sq * sq == CoefB(s, ray) * CoefB(s, ray) - 4.0 * CoefA(ray) * CoefC(s, ray)
  {
    DirectionCoefficient(s, ray, m);
  }

  /** A positive numerator of the quadratic formula gives a positive time at which the ray is on the sphere. */
  lemma RootAhead(s: Sphere, ray: Ray, m: MathLib, num: real)
    requires IsSqrt(m.sqrt) && Discriminant(s, ray) >= 0.0 && CoefA(ray) > 0.0
    requires var sq := m.sqrt(Discriminant(s, ray));
      sq * sq == CoefB(s, ray) * CoefB(s, ray) - 4.0 * CoefA(ray) * CoefC(s, ray) &&
      (num == -CoefB(s, ray) - sq || num == -CoefB(s, ray) + sq)
    requires num > 0.0
    ensures num / (2.0 * CoefA(ray)) > 0.0 && OnSphere(s, PointAt(ray, num / (2.0 * CoefA(ray))))
  {
    var a, b, c := CoefA(ray), CoefB(s, ray), CoefC(s, ray);
    var t := num / (2.0 * a);
    DivPositive(num, 2.0 * a);
    FormulaIsRoot(a, b, c, m.sqrt(Discriminant(s, ray)), t);
    OnSphereAt(s, ray, t);
  }

  /** No positive time on the sphere comes before the "minus" root. */
  lemma NearRootFirst(s: Sphere, ray: Ray, m: MathLib, t: real)
    requires IsSqrt(m.sqrt) && Discriminant(s, ray) >= 0.0 && CoefA(ray) > 0.0
    requires var sq := m.sqrt(Discriminant(s, ray));
      sq >= 0.0 && sq * sq == CoefB(s, ray) * CoefB(s, ray) - 4.0 * CoefA(ray) * CoefC(s, ray)
    requires OnSphere(s, PointAt(ray, t))
    ensures (-CoefB(s, ray) - m.sqrt(Discriminant(s, ray))) / (2.0 * CoefA(ray)) <= t
  {
    var a, b, c := CoefA(ray), CoefB(s, ray), CoefC(s, ray);
    var sq := m.sqrt(Discriminant(s, ray));
    OnSphereAt(s, ray, t);
    RootsAreFormula(a, b, c, sq, t);
    FormulaOrder(a, b, sq);
  }

  /** With a non-positive "minus" numerator, a positive time on the sphere is the "plus" root. */
  lemma FarRootOnly(s: Sphere, ray: Ray, m: MathLib, t: real)
    requires IsSqrt(m.sqrt) && Discriminant(s, ray) >= 0.0 && CoefA(ray) > 0.0
    requires var sq := m.sqrt(Discriminant(s, ray));
      sq * sq == CoefB(s, ray) * CoefB(s, ray) - 4.0 * CoefA(ray) * CoefC(s, ray) &&
      -CoefB(s, ray) - sq <= 0.0
    requires t > 0.0 && OnSphere(s, PointAt(ray, t))
    ensures (-CoefB(s, ray) + m.sqrt(Discriminant(s, ray))) / (2.0 * CoefA(ray)) <= t
  {
    var a, b, c := CoefA(ray), CoefB(s, ray), CoefC(s, ray);
    var sq := m.sqrt(Discriminant(s, ray));
    OnSphereAt(s, ray, t);
    RootsAreFormula(a, b, c, sq, t);
    NonPositiveQuotient(-b - sq, 2.0 * a);
  }

  /** When neither numerator is positive, or the discriminant is negative, nothing ahead of a moving ray is on the sphere. */
  lemma {:induction false} NoHitAhead(s: Sphere, ray: Ray, m: MathLib)
    requires IsSqrt(m.sqrt)
    requires Discriminant(s, ray) >= 0.0 ==>
               -CoefB(s, ray) - m.sqrt(Discriminant(s, ray)) <= 0.0 && -CoefB(s, ray) + m.sqrt(Discriminant(s, ray)) <= 0.0
    ensures ray.direction != Zero ==> forall t :: t > 0.0 ==> !OnSphere(s, PointAt(ray, t))
  {
    var a, b, c := CoefA(ray), CoefB(s, ray), CoefC(s, ray);
    DirectionCoefficient(s, ray, m);
    if ray.direction != Zero {
      forall t | t > 0.0
        ensures !OnSphere(s, PointAt(ray, t))
      {
        OnSphereAt(s, ray, t);
        if Discriminant(s, ray) < 0.0 {
          NoRealRoot(a, b, c, t);
        } else {
          var sq := m.sqrt(Discriminant(s, ray));
          assert sq * sq == b * b - 4.0 * a * c;
          if a * t * t + b * t + c == 0.0 {
            RootsAreFormula(a, b, c, sq, t);
            NonPositiveQuotient(-b - sq, 2.0 * a);
            NonPositiveQuotient(-b + sq, 2.0 * a);
          }
        }
      }
    }
  }

  /** With a > 0 and sqrt(D) >= 0 the "minus" root is at most the "plus" root. */
  lemma FormulaOrder(a: real, b: real, sq: real)
    requires a > 0.0 && sq >= 0.0
    ensures (-b - sq) / (2.0 * a) <= (-b + sq) / (2.0 * a)
  {
    var lo, hi := (-b - sq) / (2.0 * a), (-b + sq) / (2.0 * a);
    assert lo * (2.0 * a) == -b - sq;
    assert hi * (2.0 * a) == -b + sq;
    if lo > hi {
      calc {
        -b - sq;
        lo * (2.0 * a);
      >
        hi * (2.0 * a);
        -b + sq;
      }
    }
  }

  /** A non-positive numerator over a positive denominator gives a non-positive quotient. */
  lemma NonPositiveQuotient(x: real, y: real)
    requires x <= 0.0 && y > 0.0
    ensures x / y <= 0.0
  {
    if x < 0.0 {
      DivPositive(-x, y);
      assert x / y == -((-x) / y);
    }
  }
}
