/**
  The `Scene` object: the entities and lights added to it, kept as sets in
  insertion order, and the loops of `checkHit`, `Shadow`, `Reflect`,
  `fresnalEffect`, `Refract` and `antiAliasing`. Each method is proved to
  compute exactly the function of the same name in `Shading`, about which
  the properties are proved.
 */
module Scenes {
  import opened Wrappers
  import opened Vectors
  import opened Rays
  import Colors
  import Entities
  import opened Shading

  /** No element occurs twice. */
  predicate NoDuplicates<T(==)>(xs: seq<T>) {
    forall i, j :: 0 <= i < j < |xs| ==> xs[i] != xs[j]
  }

  /**
    `ISet.Add` on a set kept in insertion order: afterwards `x` is a member,
    the members are the old ones and `x`, the old ones keep their order, and
    the size grows by one exactly when `x` was new.
   */
  function Insert<T(==)>(xs: seq<T>, x: T): (r: seq<T>)
    ensures x in r && forall i :: 0 <= i < |xs| ==> xs[i] in r
    ensures forall i :: 0 <= i < |r| ==> r[i] in xs || r[i] == x
    ensures |xs| <= |r| && r[..|xs|] == xs
    ensures |r| == if x in xs then |xs| else |xs| + 1
    ensures NoDuplicates(xs) ==> NoDuplicates(r)
  {
    if x in xs then xs else xs + [x]
  }

  /** Adding a member twice is adding it once. */
  lemma {:induction false} InsertIdempotent<T>(xs: seq<T>, x: T)
    ensures Insert(Insert(xs, x), x) == Insert(xs, x)
  {
    assert x in Insert(xs, x);
  }

  /** Adding two members in either order gives the same set. */
  lemma {:induction false} InsertCommutesAsSet<T>(xs: seq<T>, x: T, y: T)
    ensures forall i :: 0 <= i < |Insert(Insert(xs, x), y)| ==> Insert(Insert(xs, x), y)[i] in Insert(Insert(xs, y), x)
    ensures |Insert(Insert(xs, x), y)| == |Insert(Insert(xs, y), x)|
  {
    var a := Insert(Insert(xs, x), y);
    var b := Insert(Insert(xs, y), x);
    forall i | 0 <= i < |a|
      ensures a[i] in b
    {
      assert a[i] in Insert(xs, x) || a[i] == y;
    }
  }

  class Scene {
    var entities: seq<Entities.Entity>
    var lights: seq<PointLight>
    /** The square root, tangent and pi the scene computes with. */
    const math: MathLib

    /** The scene's contents as a value, for the shading functions. */
    function Data(): SceneData
      reads this
    {
      SceneData(entities, lights, math)
    }

    /** Each entity and each light is held once. */
    ghost predicate Distinct()
      reads this
    {
      NoDuplicates(entities) && NoDuplicates(lights)
    }

    /** What the shading methods need: a true square root and positive refractive indices. */
    ghost predicate Valid()
      reads this
    {
      WellFormed(Data())
    }

    /** A new scene holds no entities and no lights. */
    constructor(math: MathLib)
      ensures entities == [] && lights == [] && this.math == math
      ensures Distinct()
      ensures IsSqrt(math.sqrt) ==> Valid()
    {
      entities := [];
      lights := [];
      this.math := math;
    }

    /** `AddEntity`: the entity joins the set of entities; the lights stay. */
    method AddEntity(entity: Entities.Entity)
      modifies this
      requires Distinct()
      ensures entities == Insert(old(entities), entity)
      ensures lights == old(lights)
      ensures Distinct()
      ensures old(Valid()) && PositiveIndex(Entities.MaterialOf(entity)) ==> Valid()
    {
      if entity !in entities {
        entities := entities + [entity];
      }
    }

    /** `AddPointLight`: the light joins the set of lights; the entities stay. */
    method AddPointLight(light: PointLight)
      modifies this
      requires Distinct()
      ensures lights == Insert(old(lights), light)
      ensures entities == old(entities)
      ensures Distinct()
      ensures old(Valid()) ==> Valid()
    {
      if light !in lights {
        lights := lights + [light];
      }
    }

    /**
      `Shadow`: the light's colour passed in, turned black as soon as one
      entity lies between the hit point and the light.
     */
    method Shadow(hit: RayHit, lightColor: Colors.Color, light: PointLight) returns (c: Colors.Color)
      requires IsSqrt(math.sqrt)
      ensures c == if Shadowed(Data(), hit, light) then Colors.Black else lightColor
    {
      var toLight := Normalized(Sub(light.position, hit.position), math);
      var ray := OffsetRay(hit.position, toLight);
      var timeTo := Length(Sub(light.position, hit.position), math);
      c := lightColor;
      for i := 0 to |entities|
        invariant c == if exists k :: 0 <= k < i && Blocks(entities[k], hit, light, math) then Colors.Black else lightColor
      {
        var lightHit := Entities.Intersect(entities[i], ray, math);
        if lightHit.Some? && lightHit.value.hitTime < timeTo {
          c := Colors.Black;
        }
      }
    }

    /**
      `checkHit`'s first loop: the entity hit first along the ray, keeping the
      earlier entity on a tie, with that entity's material; no hit leaves the
      material `NA`.
     */
    method ClosestEntity(ray: Ray) returns (outputHit: Option<RayHit>, mat: Material)
      requires Valid()
      ensures var best := Closest(EntityHits(Data(), ray), |entities|);
              outputHit.None? <==> best.None?
      ensures outputHit.None? ==> mat.kind == NA
      ensures outputHit.Some? ==>
                var best := Closest(EntityHits(Data(), ray), |entities|);
                best.Some? && outputHit == EntityHits(Data(), ray)[best.value] &&
                mat == Entities.MaterialOf(entities[best.value])
    {
      ghost var hits := EntityHits(Data(), ray);
      var currentColor := Colors.Black;
      var outputMaterial := NA;
      var refracIndex := 1.0;
      outputHit := None;
      var closestHitTime := 0.0;
      for i := 0 to |entities|
        invariant outputHit == Kept(hits, i)
        invariant outputHit.Some? ==> closestHitTime == outputHit.value.hitTime
        invariant outputHit.None? ==> outputMaterial == NA
        invariant outputHit.Some? ==>
                    Material(outputMaterial, currentColor, refracIndex) == Entities.MaterialOf(entities[Closest(hits, i).value])
      {
        var hit := Entities.Intersect(entities[i], ray, math);
        assert hit == hits[i];
        ClosestStep(hits, i);
        if hit.Some? {
          if outputHit.None? || hit.value.hitTime < closestHitTime {
            var entityMaterial := Entities.MaterialOf(entities[i]);
            currentColor := entityMaterial.color;
            outputMaterial := entityMaterial.kind;
            refracIndex := entityMaterial.refractiveIndex;
            outputHit := hit;
            closestHitTime := hit.value.hitTime;
          }
        }
      }
      mat := Material(outputMaterial, currentColor, refracIndex);
    }

    /**
      `checkHit`'s light loop: every light is shadow-tested unless the
      material is `NA`, and only a diffuse surface adds up the lights'
      diffuse terms; any other material leaves black.
     */
    method LightLoop(hit: RayHit, mat: Material) returns (outputColor: Colors.Color)
      requires Valid()
      ensures outputColor == if mat.kind == Diffuse then LightSum(Data(), mat.color, hit, |lights|) else Colors.Black
    {
      outputColor := Colors.Black;
      for j := 0 to |lights|
        invariant outputColor == if mat.kind == Diffuse then LightSum(Data(), mat.color, hit, j) else Colors.Black
      {
        var light := lights[j];
        var lightColor := light.color;
        if mat.kind != NA {
          lightColor := Shadow(hit, lightColor, light);
        }
        if mat.kind == Diffuse {
          outputColor := Colors.Add(Shading.Diffuse(mat.color, hit, lightColor, light, math), outputColor);
        }
      }
    }

    /**
      `checkHit`: the closest-hit scan over the entities, the light loop,
      then the reflective and refractive cases.
     */
    method CheckHit(ray: Ray, depth: nat) returns (c: Colors.Color)
      requires Valid()
      ensures c == Shading.CheckHit(Data(), ray, depth)
      decreases Remaining(depth), 2
    {
      var outputHit, mat := ClosestEntity(ray);
      var outputColor := Colors.Black;
      if outputHit.Some? {
        outputColor := LightLoop(outputHit.value, mat);
      }
      if mat.kind == Reflective {
        outputColor := Reflect(outputHit.value, depth);
      }
      if mat.kind == Refractive {
        outputColor := FresnelEffect(outputHit.value, depth, mat.refractiveIndex);
      }
      c := outputColor;
    }

    /** `Reflect`: one level deeper, trace the mirrored ray; black past the depth limit. */
    method Reflect(hit: RayHit, depth: nat) returns (c: Colors.Color)
      requires Valid()
      ensures c == Shading.Reflect(Data(), hit, depth)
      decreases Remaining(depth), 1
    {
      var next := depth + 1;
      if next >= MAXDEPTH {
        return Colors.Black;
      }
      var reflectionVec := ReflectionDirection(hit);
      var reflection := OffsetRay(hit.position, reflectionVec);
      assert Shading.Reflect(Data(), hit, depth) == Shading.CheckHit(Data(), reflection, next);
      c := CheckHit(reflection, next);
    }

    /** `fresnalEffect`: one level deeper, mix the reflected and (below total reflection) refracted colours. */
    method FresnelEffect(hit: RayHit, depth: nat, refracIndex: real) returns (c: Colors.Color)
      requires Valid() && refracIndex > 0.0
      ensures c == Shading.FresnelEffect(Data(), hit, depth, refracIndex)
      decreases Remaining(depth), 1
    {
      var next := depth + 1;
      if next >= MAXDEPTH {
        return Colors.Black;
      }
      var kr := Fresnel(hit, refracIndex, math);
      assert Shading.FresnelEffect(Data(), hit, depth, refracIndex) ==
             Mix(Shading.Reflect(Data(), hit, next),
                 if kr < 1.0 then Shading.Refract(Data(), hit, next, refracIndex) else Colors.Black, kr);
      var refracColor := Colors.Black;
      if kr < 1.0 {
        refracColor := Refract(hit, next, refracIndex);
      }
      var reflecColor := Reflect(hit, next);
      c := Mix(reflecColor, refracColor, kr);
    }

    /** `Refract`: one level deeper, trace the refracted ray; black past the depth limit. */
    method Refract(hit: RayHit, depth: nat, refracIndex: real) returns (c: Colors.Color)
      requires Valid() && refracIndex > 0.0
      ensures c == Shading.Refract(Data(), hit, depth, refracIndex)
      decreases Remaining(depth), 1
    {
      var next := depth + 1;
      if next >= MAXDEPTH {
        return Colors.Black;
      }
      var refractionVec := RefractionDirection(hit, refracIndex, math);
      var refraction := OffsetRay(hit.position, refractionVec);
      assert Shading.Refract(Data(), hit, depth, refracIndex) == Shading.CheckHit(Data(), refraction, next);
      c := CheckHit(refraction, next);
    }

    /**
      `antiAliasing`: two nested loops over an N x N grid of sample positions
      in the pixel at (xPos, yPos), each sample traced from the eye at depth
      0 and added to the total, then the total divided by N * N.
     */
    method AntiAliasing(xPos: real, yPos: real, cam: Camera, n: nat) returns (c: Colors.Color)
      requires Valid() && ValidCamera(cam) && n > 0
      ensures c == Shading.AntiAliasing(Data(), cam, xPos, yPos, n)
    {
      var output := Colors.Black;
      var xLimit := xPos + 1.0;
      var xStep := (xLimit - xPos) / n as real;
      var xOffset := (xLimit - xPos) / (n as real * 2.0);
      LoopConstants(xPos, n);
      var x := xPos + xOffset;
      var i: nat := 0;
      while x < xLimit
        invariant i <= n && x == LoopValue(xPos, i, n)
        invariant output == GridSum(Data(), cam, xPos, yPos, n, i)
        decreases n - i
      {
        LoopRunsNTimes(xPos, i, n);
        var sx := x + xOffset;
        assert sx == SamplePos(xPos, i, n);
        output := SampleColumn(output, sx, yPos, cam, n);
        x := x + xStep;
        i := i + 1;
      }
      LoopRunsNTimes(xPos, i, n);
      SampleCountPositive(n);
      c := Colors.DivScalar(output, (n * n) as real);
    }

    /**
      The inner loop of `antiAliasing` at horizontal position `sx`: the N
      samples down the column, each added to `output` in turn.
     */
    method SampleColumn(output: Colors.Color, sx: real, yPos: real, cam: Camera, n: nat) returns (total: Colors.Color)
      requires Valid() && ValidCamera(cam) && n > 0
      ensures total == Colors.Add(output, ColumnSum(Data(), cam, sx, yPos, n, n))
    {
      var yLimit := yPos + 1.0;
      var yStep := (yLimit - yPos) / n as real;
      var yOffset := (yLimit - yPos) / (n as real * 2.0);
      LoopConstants(yPos, n);
      total := output;
      var y := yPos + yOffset;
      var j: nat := 0;
      while y < yLimit
        invariant j <= n && y == LoopValue(yPos, j, n)
        invariant total == Colors.Add(output, ColumnSum(Data(), cam, sx, yPos, n, j))
        decreases n - j
      {
        LoopRunsNTimes(yPos, j, n);
        total := TraceSample(output, total, sx, y + yOffset, yPos, cam, n, j);
        y := y + yStep;
        j := j + 1;
      }
      LoopRunsNTimes(yPos, j, n);
    }

    /**
      One pass of `antiAliasing`'s inner loop: the ray through the sample
      position (sx, sy), traced from the eye at depth 0, its colour added to
      the running total.
     */
    method TraceSample(output: Colors.Color, total: Colors.Color, sx: real, sy: real, yPos: real, cam: Camera, n: nat, j: nat)
      returns (next: Colors.Color)
      requires Valid() && ValidCamera(cam) && n > 0
      requires sy == SamplePos(yPos, j, n)
      requires total == Colors.Add(output, ColumnSum(Data(), cam, sx, yPos, n, j))
      ensures next == Colors.Add(output, ColumnSum(Data(), cam, sx, yPos, n, j + 1))
    {
      var curRay := PrimaryRay(cam, sx, sy, math);
      var sample := CheckHit(curRay, 0);
      ColumnSumStep(Data(), cam, sx, yPos, n, j, output, total, sample);
      next := Colors.Add(total, sample);
    }
  }
}
