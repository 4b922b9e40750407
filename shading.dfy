/**
  What the scene computes for a ray, as functions of the scene's contents:
  the closest hit, diffuse lighting with hard shadows, mirror reflection,
  refraction mixed with reflection by the Fresnel factor, and the
  anti-aliased colour of a pixel. The `Scene` class's methods are proved to
  compute exactly these.
 */
module Shading {
  import opened Wrappers
  import opened Vectors
  import opened Rays
  import Colors
  import Entities

  /** Deepest bounce: a reflection or refraction at this depth is black. */
  const MAXDEPTH: nat := 10

  /** How far a secondary ray's origin is pushed along its direction, against self-intersection. */
  const OFFSET: real := 0.0000001

  /** The scene's entities and lights, in insertion order, and the numeric library. */
  datatype SceneData = SceneData(entities: seq<Entities.Entity>, lights: seq<PointLight>, math: MathLib)

  /** A refractive material needs a positive index for the Fresnel and Snell divisions to be defined. */
  predicate PositiveIndex(mat: Material) {
    mat.kind == Refractive ==> mat.refractiveIndex > 0.0
  }

  ghost predicate WellFormed(s: SceneData) {
    IsSqrt(s.math.sqrt) &&
    forall i :: 0 <= i < |s.entities| ==> PositiveIndex(Entities.MaterialOf(s.entities[i]))
  }

  /** Every entity tested against the ray, in scene order. */
  function EntityHits(s: SceneData, ray: Ray): (hits: seq<Option<RayHit>>)
    requires IsSqrt(s.math.sqrt)
    ensures |hits| == |s.entities|
  {
    seq(|s.entities|, i requires 0 <= i < |s.entities| => Entities.Intersect(s.entities[i], ray, s.math))
  }

  // Diffuse lighting and shadows.

  /** The cosine factor `normal . (light - p).Normalized()`. */
  function Lambert(hit: RayHit, light: PointLight, m: MathLib): real {
    Dot(hit.normal, Normalized(Sub(light.position, hit.position), m))
  }

  predicate NonNegative(c: Colors.Color) {
    c.r >= 0.0 && c.g >= 0.0 && c.b >= 0.0
  }

  /**
    `Diffuse`: the surface colour times the light colour times the cosine
    factor, clamped into [0, 1]. A black light contributes nothing.
   */
  function Diffuse(color: Colors.Color, hit: RayHit, lightColor: Colors.Color, light: PointLight, m: MathLib): (c: Colors.Color)
    ensures Colors.Within(c, 0.0, 1.0)
    ensures lightColor == Colors.Black ==> c == Colors.Black
  {
    Colors.Unclip(Colors.Add(Colors.Black, Colors.Scale(Colors.Mul(color, lightColor), Lambert(hit, light, m))))
  }

  /** A light behind the surface contributes nothing when both colours are non-negative. */
  lemma DiffuseFacingAway(color: Colors.Color, hit: RayHit, lightColor: Colors.Color, light: PointLight, m: MathLib)
    requires NonNegative(color) && NonNegative(lightColor) && Lambert(hit, light, m) <= 0.0
    ensures Diffuse(color, hit, lightColor, light, m) == Colors.Black
  {
    FacingAway(color, lightColor, Lambert(hit, light, m));
  }

  /** A light in front whose product needs no clamping contributes exactly that product. */
  lemma DiffuseUnclamped(color: Colors.Color, hit: RayHit, lightColor: Colors.Color, light: PointLight, m: MathLib)
    requires Colors.Within(color, 0.0, 1.0) && Colors.Within(lightColor, 0.0, 1.0)
    requires 0.0 <= Lambert(hit, light, m) <= 1.0
    ensures Diffuse(color, hit, lightColor, light, m) == Colors.Scale(Colors.Mul(color, lightColor), Lambert(hit, light, m))
  {
    LitInUnit(color, lightColor, Lambert(hit, light, m));
  }

  lemma LitInUnit(a: Colors.Color, b: Colors.Color, k: real)
    requires Colors.Within(a, 0.0, 1.0) && Colors.Within(b, 0.0, 1.0) && 0.0 <= k <= 1.0
    ensures Colors.Within(Colors.Scale(Colors.Mul(a, b), k), 0.0, 1.0)
  {
    Colors.ProductInUnit(a.r, b.r);
    Colors.ProductInUnit(a.g, b.g);
    Colors.ProductInUnit(a.b, b.b);
    Colors.ProductInUnit(a.r * b.r, k);
    Colors.ProductInUnit(a.g * b.g, k);
    Colors.ProductInUnit(a.b * b.b, k);
  }

  lemma FacingAway(a: Colors.Color, b: Colors.Color, k: real)
    requires NonNegative(a) && NonNegative(b) && k <= 0.0
    ensures Colors.Unclip(Colors.Add(Colors.Black, Colors.Scale(Colors.Mul(a, b), k))) == Colors.Black
  {
    NonPositiveProduct(a.r * b.r, k);
    NonPositiveProduct(a.g * b.g, k);
    NonPositiveProduct(a.b * b.b, k);
  }

  lemma NonPositiveProduct(p: real, k: real)
    requires p >= 0.0 && k <= 0.0
    ensures p * k <= 0.0
  {
    calc {
      p * k;
    <=
      p * 0.0;
    ==
      0.0;
    }
  }

  /** A secondary ray along `dir`, its origin pushed off the surface by `OFFSET` along `dir`. */
  function OffsetRay(position: Vector3, dir: Vector3): Ray {
    Ray(Add(position, Scale(OFFSET, dir)), dir)
  }

  /** The ray towards `light`, started a little off the surface along that direction. */
  function ShadowRay(hit: RayHit, light: PointLight, m: MathLib): Ray {
    OffsetRay(hit.position, Normalized(Sub(light.position, hit.position), m))
  }

  /** `e` lies between the hit point and the light: the shadow ray meets it sooner than the light's distance. */
  predicate Blocks(e: Entities.Entity, hit: RayHit, light: PointLight, m: MathLib)
    requires IsSqrt(m.sqrt)
  {
    var lightHit := Entities.Intersect(e, ShadowRay(hit, light, m), m);
    lightHit.Some? && lightHit.value.hitTime < Length(Sub(light.position, hit.position), m)
  }

  /** Some entity of the scene lies between the hit point and the light. */
  predicate Shadowed(s: SceneData, hit: RayHit, light: PointLight)
    requires IsSqrt(s.math.sqrt)
  {
    exists i :: 0 <= i < |s.entities| && Blocks(s.entities[i], hit, light, s.math)
  }

  /** `Shadow` as `checkHit` calls it: the light's colour, or black when the light is shadowed. */
  function Shadow(s: SceneData, hit: RayHit, light: PointLight): Colors.Color
    requires IsSqrt(s.math.sqrt)
  {
    if Shadowed(s, hit, light) then Colors.Black else light.color
  }

  /**
    The light loop of `checkHit` over the first `n` lights: each light's
    diffuse term, after its shadow test, added to the running total. The
    total is never clamped again, so with `n` lights it lies in [0, n].
   */
  function LightSum(s: SceneData, color: Colors.Color, hit: RayHit, n: nat): (c: Colors.Color)
    requires IsSqrt(s.math.sqrt)
    requires n <= |s.lights|
    ensures Colors.Within(c, 0.0, n as real)
  {
    if n == 0 then Colors.Black
    else
      var light := s.lights[n - 1];
      var prev := LightSum(s, color, hit, n - 1);
      var term := Diffuse(color, hit, Shadow(s, hit, light), light, s.math);
      assert Colors.Within(term, 0.0, 1.0);
      assert (n - 1) as real + 1.0 == n as real;
      Colors.Add(term, prev)
  }

  /** A light that some entity blocks adds nothing to the light loop's total. */
  lemma {:induction false} BlockedLightAddsNothing(s: SceneData, color: Colors.Color, hit: RayHit, n: nat, i: nat)
    requires IsSqrt(s.math.sqrt)
    requires 0 < n <= |s.lights| && 0 <= i < |s.entities|
    requires Blocks(s.entities[i], hit, s.lights[n - 1], s.math)
    ensures LightSum(s, color, hit, n) == LightSum(s, color, hit, n - 1)
  {
    assert Shadow(s, hit, s.lights[n - 1]) == Colors.Black;
  }

  /**
    The total really is not clamped: when every light lights the surface
    fully white, `n` lights give `n` in every channel.
   */
  lemma {:induction false} UnclampedSum(s: SceneData, color: Colors.Color, hit: RayHit, n: nat)
    requires IsSqrt(s.math.sqrt)
    requires n <= |s.lights|
    requires forall i :: 0 <= i < n ==>
               Diffuse(color, hit, Shadow(s, hit, s.lights[i]), s.lights[i], s.math) == Colors.Color(1.0, 1.0, 1.0)
    ensures LightSum(s, color, hit, n) == Colors.Color(n as real, n as real, n as real)
  {
    if n > 0 {
      UnclampedSum(s, color, hit, n - 1);
      var light := s.lights[n - 1];
      var term := Diffuse(color, hit, Shadow(s, hit, light), light, s.math);
      assert term == Colors.Color(1.0, 1.0, 1.0);
      assert LightSum(s, color, hit, n) == Colors.Add(term, LightSum(s, color, hit, n - 1));
      assert (n - 1) as real + 1.0 == n as real;
    }
  }

  // Reflection and refraction directions.

  /** `Math.Clamp` */
  function Clamp(v: real, lo: real, hi: real): real
    requires lo <= hi
  {
    if v < lo then lo else if v > hi then hi else v
  }

  /** `Math.Max` */
  function MaxReal(a: real, b: real): real {
    if a >= b then a else b
  }

  /** `Math.Abs` */
  function Abs(a: real): real {
    if a < 0.0 then -a else a
  }

  /** `incident - 2 (normal . incident) normal` */
  function ReflectionDirection(hit: RayHit): Vector3 {
    Sub(hit.incident, Scale(2.0 * Dot(hit.normal, hit.incident), hit.normal))
  }

  /** Mirror reflection about a unit normal turns the direction's component along the normal around. */
  lemma {:induction false} ReflectionTurnsNormal(hit: RayHit)
    requires Dot(hit.normal, hit.normal) == 1.0
    ensures Dot(ReflectionDirection(hit), hit.normal) == -Dot(hit.incident, hit.normal)
  {
    var n := hit.normal;
    var d := Dot(n, hit.incident);
    var r := ReflectionDirection(hit);
    DotScaleLeft(2.0 * d, n, n);
    assert Dot(r, n) == Dot(hit.incident, n) - Dot(Scale(2.0 * d, n), n);
    assert Dot(Scale(2.0 * d, n), n) == 2.0 * d;
  }

  /** Mirror reflection about a unit normal keeps the direction's length. */
  lemma {:induction false} ReflectionKeepsLength(hit: RayHit)
    requires Dot(hit.normal, hit.normal) == 1.0
    ensures Dot(ReflectionDirection(hit), ReflectionDirection(hit)) == Dot(hit.incident, hit.incident)
  {
    var i := hit.incident;
    var n := hit.normal;
    var d := Dot(n, i);
    var t := -(2.0 * d);
    var r := ReflectionDirection(hit);
    assert r == Add(i, Scale(t, n));
    DotAlongLine(i, n, t);
    assert Dot(i, n) == d;
    assert Dot(r, r) == 1.0 * t * t + 2.0 * d * t + Dot(i, i);
    Cancel(d, t, Dot(i, i));
  }

  lemma Cancel(d: real, t: real, x: real)
    requires t == -(2.0 * d)
    ensures 1.0 * t * t + 2.0 * d * t + x == x
  {
    assert 2.0 * d == -t;
    assert 2.0 * d * t == -t * t;
  }

  /** The clamped cosine `incident . normal` in [-1, 1]. */
  function IncidenceCos(hit: RayHit): real {
    Clamp(Dot(hit.incident, hit.normal), -1.0, 1.0)
  }

  /**
    `Refract`'s direction: the ray enters when the clamped cosine is
    negative; otherwise it leaves, the normal is flipped and the two indices
    swap. Under total internal reflection (k < 0) the direction is zero.
   */
  function RefractionDirection(hit: RayHit, idx: real, m: MathLib): Vector3
    requires idx != 0.0
  {
    var cos0 := IncidenceCos(hit);
    var entering := cos0 < 0.0;
    var nrefr := if entering then hit.normal else Neg(hit.normal);
    var etai := if entering then 1.0 else idx;
    var etat := if entering then idx else 1.0;
    var cosi := if entering then -cos0 else cos0;
    Bend(hit.incident, nrefr, etai / etat, cosi, m)
  }

  /** Snell's law for the index ratio `eta`: zero under total internal reflection (k < 0). */
  function Bend(incident: Vector3, nrefr: Vector3, eta: real, cosi: real, m: MathLib): Vector3 {
    var k := 1.0 - eta * eta * (1.0 - cosi * cosi);
    if k < 0.0 then Zero
    else Add(Scale(eta, incident), Scale(eta * cosi - m.sqrt(k), nrefr))
  }

  /** Between media of equal index (1) the refracted ray goes straight on. */
  lemma {:induction false} MatchedIndexStraight(hit: RayHit, m: MathLib)
    requires IsSqrt(m.sqrt)
    ensures RefractionDirection(hit, 1.0, m) == hit.incident
  {
    var cos0 := IncidenceCos(hit);
    var entering := cos0 < 0.0;
    var nrefr := if entering then hit.normal else Neg(hit.normal);
    var cosi := if entering then -cos0 else cos0;
    var etai := if entering then 1.0 else 1.0;
    var etat := if entering then 1.0 else 1.0;
    assert etai / etat == 1.0;
    UnitRatioStraight(hit.incident, nrefr, cosi, m);
  }

  /** With ratio 1 and a non-negative cosine the bent direction is the incident one. */
  lemma UnitRatioStraight(incident: Vector3, nrefr: Vector3, cosi: real, m: MathLib)
    requires IsSqrt(m.sqrt) && cosi >= 0.0
    ensures Bend(incident, nrefr, 1.0, cosi, m) == incident
  {
    var k := 1.0 - 1.0 * 1.0 * (1.0 - cosi * cosi);
    assert k == cosi * cosi;
    SquareSign(cosi);
    SqrtOfSquare(m, cosi);
    assert 1.0 * cosi - m.sqrt(k) == 0.0;
    StraightOn(incident, nrefr);
  }

  lemma StraightOn(v: Vector3, n: Vector3)
    ensures Add(Scale(1.0, v), Scale(0.0, n)) == v
  {
  }

  /** The square root of `c * c` is `c` for non-negative `c`. */
  lemma SqrtOfSquare(m: MathLib, c: real)
    requires IsSqrt(m.sqrt) && c >= 0.0
    ensures m.sqrt(c * c) == c
  {
    SquareSign(c);
    assert Square(c) >= 0.0;
    var sq := m.sqrt(c * c);
    assert sq >= 0.0 && sq * sq == c * c;
    SquaresEqual(sq, c);
  }

  // The Fresnel factor.

  /** `etai` and `etat` as `fresnel` orders them: swapped when the cosine is positive (leaving). */
  function EtaI(cosi: real, idx: real): real {
    if cosi > 0.0 then idx else 1.0
  }

  function EtaT(cosi: real, idx: real): real {
    if cosi > 0.0 then 1.0 else idx
  }

  /** `etai / etat`, positive for a positive index. */
  function Eta(cosi: real, idx: real): (eta: real)
    requires idx > 0.0
    ensures eta > 0.0
  {
    DivPositive(EtaI(cosi, idx), EtaT(cosi, idx));
    EtaI(cosi, idx) / EtaT(cosi, idx)
  }

  /** `Math.Sqrt(Math.Max(0.0, 1 - x * x))`: the other trigonometric ratio of an angle. */
  function CoRoot(x: real, m: MathLib): real {
    m.sqrt(MaxReal(0.0, 1.0 - Square(x)))
  }

  /** The sine of the transmitted angle, by Snell's law. */
  function SinT(hit: RayHit, idx: real, m: MathLib): real
    requires idx > 0.0
  {
    var cosi := IncidenceCos(hit);
    Eta(cosi, idx) * CoRoot(cosi, m)
  }

  /** `(a - b) / (a + b)` for a >= 0 < b: one polarisation's amplitude ratio, in [-1, 1]. */
  function Ratio(a: real, b: real): (r: real)
    requires a >= 0.0 && b > 0.0
    ensures -1.0 <= r <= 1.0
    ensures Square(r) <= 1.0
  {
    var r := (a - b) / (a + b);
    RatioBound(a, b);
    SquareAtMostOne(r);
    r
  }

  lemma RatioBound(a: real, b: real)
    requires a >= 0.0 && b > 0.0
    ensures -1.0 <= (a - b) / (a + b) <= 1.0
  {
    var p := a + b;
    var q := (a - b) / p;
    assert q * p == a - b;
    if q > 1.0 {
      calc {
        a - b;
        q * p;
      >
        1.0 * p;
      }
    }
    if q < -1.0 {
      calc {
        a - b;
        q * p;
      <
        -1.0 * p;
      }
    }
  }

  lemma SquareAtMostOne(r: real)
    requires -1.0 <= r <= 1.0
    ensures Square(r) <= 1.0
  {
    if r >= 0.0 {
      calc {
        Square(r);
        r * r;
      <=
        1.0 * r;
      <=
        1.0;
      }
    } else {
      calc {
        Square(r);
        (-r) * (-r);
      <=
        1.0 * (-r);
      <=
        1.0;
      }
    }
  }

  /**
    `fresnel`: the share of light reflected at the surface. It is 1 under
    total internal reflection (sin t >= 1) and otherwise the mean of the two
    squared polarisation ratios, so it always lies in [0, 1].
   */
  function Fresnel(hit: RayHit, idx: real, m: MathLib): (kr: real)
    requires IsSqrt(m.sqrt) && idx > 0.0
    ensures 0.0 <= kr <= 1.0
    ensures SinT(hit, idx, m) >= 1.0 ==> kr == 1.0
  {
    var cosi := IncidenceCos(hit);
    var etai := EtaI(cosi, idx);
    var etat := EtaT(cosi, idx);
    var sint := SinT(hit, idx, m);
    if sint >= 1.0 then 1.0
    else
      var cost := CoRoot(sint, m);
      var c := Abs(cosi);
      SinTRange(hit, idx, m);
      CoRootPositive(sint, m);
      var rs := Ratio(etat * c, etai * cost);
      var rp := Ratio(etai * c, etat * cost);
      (Square(rs) + Square(rp)) / 2.0
  }

  lemma SinTRange(hit: RayHit, idx: real, m: MathLib)
    requires IsSqrt(m.sqrt) && idx > 0.0
    ensures SinT(hit, idx, m) >= 0.0
  {
    var cosi := IncidenceCos(hit);
    var eta := Eta(cosi, idx);
    var root := CoRoot(cosi, m);
    SquareSign(cosi);
    assert root >= 0.0;
    assert eta * root >= 0.0;
  }

  lemma CoRootPositive(x: real, m: MathLib)
    requires IsSqrt(m.sqrt) && 0.0 <= x < 1.0
    ensures CoRoot(x, m) > 0.0
  {
    SquareAtMostSelf(x);
    assert 1.0 - Square(x) > 0.0;
    SqrtOfPositive(m, 1.0 - Square(x));
  }

  /** Head-on entry (cosine -1) reflects the classic share ((n - 1) / (n + 1))^2. */
  lemma {:induction false} FresnelHeadOn(hit: RayHit, idx: real, m: MathLib)
    requires IsSqrt(m.sqrt) && idx > 0.0
    requires Dot(hit.incident, hit.normal) <= -1.0
    ensures Fresnel(hit, idx, m) == Square((idx - 1.0) / (idx + 1.0))
  {
    var cosi := IncidenceCos(hit);
    assert cosi == -1.0;
    assert Square(cosi) == 1.0;
    SqrtOfZero(m);
    assert CoRoot(cosi, m) == 0.0;
    var eta := Eta(cosi, idx);
    assert SinT(hit, idx, m) == eta * 0.0;
    assert Square(0.0) == 0.0;
    SqrtOfOne(m);
    assert CoRoot(0.0, m) == 1.0;
    assert EtaI(cosi, idx) == 1.0 && EtaT(cosi, idx) == idx;
    var rs := Ratio(idx * 1.0, 1.0 * 1.0);
    var rp := Ratio(1.0 * 1.0, idx * 1.0);
    assert rs == (idx - 1.0) / (idx + 1.0);
    assert rp == -rs;
    assert Square(rp) == Square(rs);
  }

  lemma SqrtOfOne(m: MathLib)
    requires IsSqrt(m.sqrt)
    ensures m.sqrt(1.0) == 1.0
  {
    var s := m.sqrt(1.0);
    assert s >= 0.0 && s * s == 1.0 * 1.0;
    SquaresEqual(s, 1.0);
  }

  /** Between media of equal index nothing is reflected, except at grazing incidence (cosine 0). */
  lemma {:induction false} FresnelMatched(hit: RayHit, m: MathLib)
    requires IsSqrt(m.sqrt)
    requires IncidenceCos(hit) != 0.0
    ensures Fresnel(hit, 1.0, m) == 0.0
  {
    var cosi := IncidenceCos(hit);
    assert Eta(cosi, 1.0) == 1.0;
    assert SinT(hit, 1.0, m) == 1.0 * CoRoot(cosi, m);
    MatchedAngles(m, cosi);
    var c := Abs(cosi);
    assert EtaI(cosi, 1.0) == 1.0 && EtaT(cosi, 1.0) == 1.0;
    assert Ratio(1.0 * c, 1.0 * c) == 0.0;
    assert Square(0.0) == 0.0;
  }

  /**
    With equal indices the transmitted angle equals the incident one:
    sin t = sqrt(1 - cos^2 i) is below 1 and cos t = |cos i|.
   */
  lemma MatchedAngles(m: MathLib, cosi: real)
    requires IsSqrt(m.sqrt)
    requires -1.0 <= cosi <= 1.0 && cosi != 0.0
    ensures 0.0 <= CoRoot(cosi, m) < 1.0 && CoRoot(CoRoot(cosi, m), m) == Abs(cosi)
  {
    var c := Abs(cosi);
    assert Square(c) == Square(cosi);
    SquareSign(c);
    SquareAtMostSelf(c);
    var root := CoRoot(cosi, m);
    assert root >= 0.0 && root * root == 1.0 - Square(c);
    SquareSign(root);
    assert Square(root) == 1.0 - Square(c);
    var arg := MaxReal(0.0, 1.0 - Square(root));
    assert arg == c * c;
    assert CoRoot(root, m) == m.sqrt(arg);
    SqrtOfSquare(m, c);
    BelowOne(root);
  }

  // Recursive shading.

  /** The recursion measure: how many more bounces the depth allows. */
  function Remaining(depth: nat): nat {
    if depth < MAXDEPTH then MAXDEPTH - depth else 0
  }

  /**
    `checkHit`: the colour seen along `ray` at recursion depth `depth`. The
    closest entity hit decides (ties to the earlier entity); a diffuse
    surface sums its lights, a reflective one reflects, a refractive one
    mixes reflection and refraction, and no hit or a material of type NA is
    black.
   */
  function CheckHit(s: SceneData, ray: Ray, depth: nat): Colors.Color
    requires WellFormed(s)
    decreases Remaining(depth), 2
  {
    var hits := EntityHits(s, ray);
    var best := Closest(hits, |hits|);
    if best.None? then Colors.Black
    else
      var mat := Entities.MaterialOf(s.entities[best.value]);
      var hit := hits[best.value].value;
      match mat.kind
      case NA => Colors.Black
      case Diffuse => LightSum(s, mat.color, hit, |s.lights|)
      case Reflective => Reflect(s, hit, depth)
      case Refractive => FresnelEffect(s, hit, depth, mat.refractiveIndex)
  }

  /** A ray that no entity reports a hit for is black, whatever the depth. */
  lemma {:induction false} MissIsBlack(s: SceneData, ray: Ray, depth: nat)
    requires WellFormed(s)
    requires forall i :: 0 <= i < |s.entities| ==> Entities.Intersect(s.entities[i], ray, s.math).None?
    ensures CheckHit(s, ray, depth) == Colors.Black
  {
    ClosestIsEarliest(EntityHits(s, ray), |s.entities|);
  }

  /** An empty scene renders black everywhere. */
  lemma {:induction false} EmptySceneIsBlack(s: SceneData, ray: Ray, depth: nat)
    requires WellFormed(s) && s.entities == []
    ensures CheckHit(s, ray, depth) == Colors.Black
  {
    MissIsBlack(s, ray, depth);
  }

  /**
    What `Reflect` and `Refract` do with their secondary ray: trace it one
    level deeper, or give black once that level reaches the depth limit.
   */
  function Trace(s: SceneData, ray: Ray, depth: nat): (c: Colors.Color)
    requires WellFormed(s)
    ensures depth + 1 >= MAXDEPTH ==> c == Colors.Black
    decreases Remaining(depth), 0
  {
    var next := depth + 1;
    if next >= MAXDEPTH then Colors.Black
    else CheckHit(s, ray, next)
  }

  /** `Reflect`: one level deeper, the colour along the mirrored ray; black at the depth limit. */
  function Reflect(s: SceneData, hit: RayHit, depth: nat): (c: Colors.Color)
    requires WellFormed(s)
    ensures depth + 1 >= MAXDEPTH ==> c == Colors.Black
    decreases Remaining(depth), 1
  {
    Trace(s, OffsetRay(hit.position, ReflectionDirection(hit)), depth)
  }

  /**
    `fresnalEffect`: one level deeper, the reflected colour weighted by the
    Fresnel factor plus the refracted colour weighted by the rest; the
    refracted ray is traced only when the factor is below 1.
   */
  function FresnelEffect(s: SceneData, hit: RayHit, depth: nat, idx: real): (c: Colors.Color)
    requires WellFormed(s) && idx > 0.0
    ensures depth + 1 >= MAXDEPTH ==> c == Colors.Black
    decreases Remaining(depth), 1
  {
    var next := depth + 1;
    if next >= MAXDEPTH then Colors.Black
    else
      var kr := Fresnel(hit, idx, s.math);
      var refracColor := if kr < 1.0 then Refract(s, hit, next, idx) else Colors.Black;
      var reflecColor := Reflect(s, hit, next);
      Mix(reflecColor, refracColor, kr)
  }

  /** `reflecColor * kr + refracColor * (1 - kr)` */
  function Mix(reflecColor: Colors.Color, refracColor: Colors.Color, kr: real): Colors.Color {
    Colors.Add(Colors.Scale(reflecColor, kr), Colors.Scale(refracColor, 1.0 - kr))
  }

  /** `Refract`: one level deeper, the colour along the refracted ray; black at the depth limit. */
  function Refract(s: SceneData, hit: RayHit, depth: nat, idx: real): (c: Colors.Color)
    requires WellFormed(s) && idx > 0.0
    ensures depth + 1 >= MAXDEPTH ==> c == Colors.Black
    decreases Remaining(depth), 1
  {
    Trace(s, OffsetRay(hit.position, RefractionDirection(hit, idx, s.math)), depth)
  }

  /**
    Every colour the recursion produces lies in [0, number of lights]: the
    diffuse sum is bounded so, reflection passes a bounded colour on, and
    the Fresnel mix is a convex blend of two bounded colours.
   */
  lemma {:induction false} CheckHitBound(s: SceneData, ray: Ray, depth: nat)
    requires WellFormed(s)
    ensures Colors.Within(CheckHit(s, ray, depth), 0.0, |s.lights| as real)
    decreases Remaining(depth), 2
  {
    var hits := EntityHits(s, ray);
    var best := Closest(hits, |hits|);
    if best.Some? {
      var mat := Entities.MaterialOf(s.entities[best.value]);
      var hit := hits[best.value].value;
      match mat.kind
      case NA =>
      case Diffuse =>
      case Reflective => ReflectBound(s, hit, depth);
      case Refractive => FresnelEffectBound(s, hit, depth, mat.refractiveIndex);
    }
  }

  lemma {:induction false} TraceBound(s: SceneData, ray: Ray, depth: nat)
    requires WellFormed(s)
    ensures Colors.Within(Trace(s, ray, depth), 0.0, |s.lights| as real)
    decreases Remaining(depth), 0
  {
    var next := depth + 1;
    if next < MAXDEPTH {
      CheckHitBound(s, ray, next);
    }
  }

  lemma {:induction false} ReflectBound(s: SceneData, hit: RayHit, depth: nat)
    requires WellFormed(s)
    ensures Colors.Within(Reflect(s, hit, depth), 0.0, |s.lights| as real)
    decreases Remaining(depth), 1
  {
    TraceBound(s, OffsetRay(hit.position, ReflectionDirection(hit)), depth);
  }

  lemma {:induction false} RefractBound(s: SceneData, hit: RayHit, depth: nat, idx: real)
    requires WellFormed(s) && idx > 0.0
    ensures Colors.Within(Refract(s, hit, depth, idx), 0.0, |s.lights| as real)
    decreases Remaining(depth), 1
  {
    TraceBound(s, OffsetRay(hit.position, RefractionDirection(hit, idx, s.math)), depth);
  }

  lemma {:induction false} FresnelEffectBound(s: SceneData, hit: RayHit, depth: nat, idx: real)
    requires WellFormed(s) && idx > 0.0
    ensures Colors.Within(FresnelEffect(s, hit, depth, idx), 0.0, |s.lights| as real)
    decreases Remaining(depth), 1
  {
    var next := depth + 1;
    if next < MAXDEPTH {
      var kr := Fresnel(hit, idx, s.math);
      if kr < 1.0 {
        RefractBound(s, hit, next, idx);
      }
      ReflectBound(s, hit, next);
      var refracColor := if kr < 1.0 then Refract(s, hit, next, idx) else Colors.Black;
      var reflecColor := Reflect(s, hit, next);
      assert FresnelEffect(s, hit, depth, idx) == Mix(reflecColor, refracColor, kr);
      Colors.BlendWithin(reflecColor, refracColor, kr, |s.lights| as real);
    }
  }

  // Anti-aliasing.

  /** The view: image width and height in pixels, their ratio, and the field of view in degrees. */
  datatype Camera = Camera(width: real, height: real, aspect: real, fov: real)

  /** The image's size and aspect ratio are divisors. */
  predicate ValidCamera(cam: Camera) {
    cam.width != 0.0 && cam.height != 0.0 && cam.aspect != 0.0
  }

  /** `xStep`: `((xPos + 1) - xPos) / N`. */
  function SampleStep(n: nat): real
    requires n > 0
  {
    1.0 / n as real
  }

  /** `xOffset`: `((xPos + 1) - xPos) / (N * 2)`, half a step. */
  function HalfStep(n: nat): real
    requires n > 0
  {
    1.0 / (n as real * 2.0)
  }

  /** The loop's step `((pos + 1) - pos) / N` and offset `((pos + 1) - pos) / (N * 2)` are a step and half a step. */
  lemma LoopConstants(pos: real, n: nat)
    requires n > 0
    ensures ((pos + 1.0) - pos) / n as real == SampleStep(n)
    ensures ((pos + 1.0) - pos) / (n as real * 2.0) == HalfStep(n)
  {
    assert (pos + 1.0) - pos == 1.0;
  }

  /** The sampling loop's variable on its i-th pass: it starts half a step in and moves a step each pass. */
  function LoopValue(pos: real, i: nat, n: nat): real
    requires n > 0
  {
    if i == 0 then pos + HalfStep(n) else LoopValue(pos, i - 1, n) + SampleStep(n)
  }

  /** After `i` passes the loop variable stands `i` whole steps past its start. */
  lemma {:induction false} LoopValueClosedForm(pos: real, i: nat, n: nat)
    requires n > 0
    ensures LoopValue(pos, i, n) == pos + HalfStep(n) + i as real * SampleStep(n)
  {
    if i > 0 {
      LoopValueClosedForm(pos, i - 1, n);
      assert (i - 1) as real * SampleStep(n) + SampleStep(n) == i as real * SampleStep(n);
    }
  }

  /** The position a pass samples: the loop variable plus the half step once more. */
  function SamplePos(pos: real, i: nat, n: nat): real
    requires n > 0
  {
    LoopValue(pos, i, n) + HalfStep(n)
  }

  lemma StepIsTwoHalves(n: nat)
    requires n > 0
    ensures SampleStep(n) == 2.0 * HalfStep(n) && HalfStep(n) > 0.0
  {
    var h := HalfStep(n);
    assert h * (n as real * 2.0) == 1.0;
    DivPositive(1.0, n as real * 2.0);
    var st := SampleStep(n);
    assert st * n as real == 1.0;
    assert (2.0 * h) * n as real == 1.0;
    assert (st - 2.0 * h) * n as real == 0.0;
  }

  /**
    The loop `for (x = pos + offset; x < pos + 1; x += step)` runs exactly `N`
    passes: the condition holds on pass `i` exactly when `i < N`.
   */
  lemma {:induction false} LoopRunsNTimes(pos: real, i: nat, n: nat)
    requires n > 0
    ensures LoopValue(pos, i, n) < pos + 1.0 <==> i < n
  {
    StepIsTwoHalves(n);
    LoopValueClosedForm(pos, i, n);
    var h := HalfStep(n);
    assert h * (n as real * 2.0) == 1.0;
    assert LoopValue(pos, i, n) - pos == h * (2.0 * i as real + 1.0);
    if i < n {
      calc {
        h * (2.0 * i as real + 1.0);
      <
        h * (n as real * 2.0);
      ==
        1.0;
      }
    } else {
      calc {
        h * (2.0 * i as real + 1.0);
      >
        h * (n as real * 2.0);
      ==
        1.0;
      }
    }
  }

  /**
    The half-step offset is added twice, so pass `i` samples at
    `pos + (i + 1) / N` rather than at the centre of its sub-pixel.
   */
  lemma {:induction false} SamplePositions(pos: real, i: nat, n: nat)
    requires n > 0
    ensures SamplePos(pos, i, n) == pos + (i as real + 1.0) * SampleStep(n)
  {
    StepIsTwoHalves(n);
    LoopValueClosedForm(pos, i, n);
  }

  /** With one sample per axis the pixel is sampled at its far corner, `pos + 1`, not at `pos + 0.5`. */
  lemma {:induction false} SingleSampleAtCorner(pos: real)
    ensures SamplePos(pos, 0, 1) == pos + 1.0
  {
    SamplePositions(pos, 0, 1);
    assert SampleStep(1) == 1.0;
  }

  /** The primary ray through image position (sx, sy): from the origin towards z = 1. */
  function PrimaryRay(cam: Camera, sx: real, sy: real, m: MathLib): Ray
    requires ValidCamera(cam)
  {
    var t := m.tan((cam.fov / 2.0) * (m.pi / 180.0));
    var x1 := ((sx / cam.width) * 2.0 - 1.0) * t;
    var y1 := ((1.0 - (sy / cam.height) * 2.0) * t) / cam.aspect;
    Ray(Zero, Vector3(x1, y1, 1.0))
  }

  /** The inner loop's total over its first `j` passes, at horizontal sample position `sx`. */
  function ColumnSum(s: SceneData, cam: Camera, sx: real, yPos: real, n: nat, j: nat): Colors.Color
    requires WellFormed(s) && ValidCamera(cam) && n > 0
  {
    if j == 0 then Colors.Black
    else
      var ray := PrimaryRay(cam, sx, SamplePos(yPos, j - 1, n), s.math);
      Colors.Add(ColumnSum(s, cam, sx, yPos, n, j - 1), CheckHit(s, ray, 0))
  }

  /** One more pass of the inner loop adds the colour traced through its sample position to the running total. */
  lemma ColumnSumStep(s: SceneData, cam: Camera, sx: real, yPos: real, n: nat, j: nat,
                      output: Colors.Color, total: Colors.Color, sample: Colors.Color)
    requires WellFormed(s) && ValidCamera(cam) && n > 0
    requires total == Colors.Add(output, ColumnSum(s, cam, sx, yPos, n, j))
    requires sample == CheckHit(s, PrimaryRay(cam, sx, SamplePos(yPos, j, n), s.math), 0)
    ensures Colors.Add(total, sample) == Colors.Add(output, ColumnSum(s, cam, sx, yPos, n, j + 1))
  {
    Colors.AddAssociative(output, ColumnSum(s, cam, sx, yPos, n, j), sample);
  }

  /** The outer loop's total over its first `i` passes, each adding a whole column. */
  function GridSum(s: SceneData, cam: Camera, xPos: real, yPos: real, n: nat, i: nat): Colors.Color
    requires WellFormed(s) && ValidCamera(cam) && n > 0
  {
    if i == 0 then Colors.Black
    else Colors.Add(GridSum(s, cam, xPos, yPos, n, i - 1), ColumnSum(s, cam, SamplePos(xPos, i - 1, n), yPos, n, n))
  }

  /** `k` copies of `hi` added up, the bound on a running sum of `k` samples. */
  function Budget(k: nat, hi: real): real {
    if k == 0 then 0.0 else Budget(k - 1, hi) + hi
  }

  lemma {:induction false} BudgetIsProduct(k: nat, hi: real)
    ensures Budget(k, hi) == k as real * hi
  {
    if k > 0 {
      BudgetIsProduct(k - 1, hi);
      assert (k - 1) as real * hi + hi == k as real * hi;
    }
  }

  /** A column of `j` samples totals at most `j` times the number of lights. */
  lemma {:induction false} ColumnBound(s: SceneData, cam: Camera, sx: real, yPos: real, n: nat, j: nat)
    requires WellFormed(s) && ValidCamera(cam) && n > 0
    ensures Colors.Within(ColumnSum(s, cam, sx, yPos, n, j), 0.0, Budget(j, |s.lights| as real))
  {
    if j > 0 {
      ColumnBound(s, cam, sx, yPos, n, j - 1);
      var ray := PrimaryRay(cam, sx, SamplePos(yPos, j - 1, n), s.math);
      CheckHitBound(s, ray, 0);
      var prev := ColumnSum(s, cam, sx, yPos, n, j - 1);
      assert ColumnSum(s, cam, sx, yPos, n, j) == Colors.Add(prev, CheckHit(s, ray, 0));
      SumWithin(prev, CheckHit(s, ray, 0), Budget(j - 1, |s.lights| as real), |s.lights| as real);
    }
  }

  /** `i` columns of `N` samples total at most `i * N` times the number of lights. */
  lemma {:induction false} GridBound(s: SceneData, cam: Camera, xPos: real, yPos: real, n: nat, i: nat)
    requires WellFormed(s) && ValidCamera(cam) && n > 0
    ensures Colors.Within(GridSum(s, cam, xPos, yPos, n, i), 0.0, Budget(i, Budget(n, |s.lights| as real)))
  {
    if i > 0 {
      GridBound(s, cam, xPos, yPos, n, i - 1);
      var sx := SamplePos(xPos, i - 1, n);
      ColumnBound(s, cam, sx, yPos, n, n);
      var prev := GridSum(s, cam, xPos, yPos, n, i - 1);
      var column := ColumnSum(s, cam, sx, yPos, n, n);
      assert GridSum(s, cam, xPos, yPos, n, i) == Colors.Add(prev, column);
      SumWithin(prev, column, Budget(i - 1, Budget(n, |s.lights| as real)), Budget(n, |s.lights| as real));
    }
  }

  /**
    `antiAliasing`: the mean of the N x N samples' colours. Since every
    sample lies in [0, number of lights], so does the pixel.
   */
  function AntiAliasing(s: SceneData, cam: Camera, xPos: real, yPos: real, n: nat): (c: Colors.Color)
    requires WellFormed(s) && ValidCamera(cam) && n > 0
    ensures Colors.Within(c, 0.0, |s.lights| as real)
  {
    var total := GridSum(s, cam, xPos, yPos, n, n);
    GridBound(s, cam, xPos, yPos, n, n);
    GridMeanWithin(total, n, |s.lights| as real);
    Colors.DivScalar(total, (n * n) as real)
  }

  /** There are `N * N` samples, a positive count. */
  lemma SampleCountPositive(n: nat)
    requires n > 0
    ensures (n * n) as real > 0.0
  {
    assert n * n >= 1 * n;
  }

  lemma SquareBudget(n: nat, l: real)
    requires n > 0
    ensures (n * n) as real > 0.0
    ensures Budget(n, Budget(n, l)) == (n * n) as real * l
  {
    SampleCountPositive(n);
    BudgetIsProduct(n, l);
    BudgetIsProduct(n, n as real * l);
    assert n * n >= 1 * n;
    assert n as real * (n as real * l) == (n * n) as real * l;
  }

  /** Adding a colour in [0, hi] to a total in [0, bound] gives a total in [0, bound + hi]. */
  lemma SumWithin(total: Colors.Color, c: Colors.Color, bound: real, hi: real)
    requires Colors.Within(total, 0.0, bound) && Colors.Within(c, 0.0, hi)
    ensures Colors.Within(Colors.Add(total, c), 0.0, bound + hi)
  {
  }

  /** A total of `N * N` samples each in [0, hi], divided by `N * N`, lies in [0, hi]. */
  lemma GridMeanWithin(total: Colors.Color, n: nat, hi: real)
    requires n > 0 && Colors.Within(total, 0.0, Budget(n, Budget(n, hi)))
    ensures (n * n) as real != 0.0
    ensures Colors.Within(Colors.DivScalar(total, (n * n) as real), 0.0, hi)
  {
    SquareBudget(n, hi);
    MeanWithin(total, (n * n) as real, hi);
  }

  lemma MeanWithin(c: Colors.Color, k: real, hi: real)
    requires k > 0.0 && Colors.Within(c, 0.0, k * hi)
    ensures Colors.Within(Colors.DivScalar(c, k), 0.0, hi)
  {
    QuotientWithin(c.r, k, hi);
    QuotientWithin(c.g, k, hi);
    QuotientWithin(c.b, k, hi);
  }

  lemma QuotientWithin(v: real, k: real, hi: real)
    requires k > 0.0 && 0.0 <= v <= k * hi
    ensures 0.0 <= v / k <= hi
  {
    var q := v / k;
    assert q * k == v;
    if q > hi {
      calc {
        v;
        q * k;
      >
        hi * k;
      }
    }
    if q < 0.0 {
      calc {
        v;
        q * k;
      <
        0.0 * k;
      }
    }
  }
}
