# Ray tracer core in Dafny

A model of the rendering core of a small C# ray tracer. It proves properties of that model.

**Scene.** A scene holds a set of entities and a set of point lights. For every pixel it does the following:
- It shoots N x N primary rays from the eye through sample positions in the pixel, the last of them on its far edge at `pos + 1` (`antiAliasing`, see "## Left out"), and averages their colours.
- It follows each ray with `checkHit`:
  - It finds the entity the ray hits first.
  - A diffuse surface adds up every light's Lambert term. Each term is clamped into [0, 1] and is black when some entity lies between the surface and the light.
  - A reflective surface traces the mirrored ray one level deeper.
  - A refractive surface mixes the reflected colour and the refracted colour (Snell's law) by the Fresnel factor.
  - No hit, or a material of type `NA`, gives black. So does any bounce at the depth limit `MAXDEPTH = 10`.

**Primitives.** The entities are spheres, planes, triangles and triangle meshes loaded from Wavefront OBJ text (`ObjModel`):
- A mesh is first tested against a 12-triangle bounding box.
- It then reports its earliest face hit, with the normal interpolated from the face's vertex normals.

**How the model is built.**
- Values of the source become datatypes: `Color`, `Vector3`, `Ray`, `RayHit`, `Material`, `Sphere`, `Plane`, `Triangle`, `Vertice`, `OBJFace`.
- The two objects that the source fills in place become classes:
  - `Scenes.Scene`, whose entity and light sets are `seq` fields that `AddEntity` and `AddPointLight` extend;
  - `ObjModels.ObjModel`, whose vertex, normal and face lists and bounding box are fields the constructor fills.
- The source's loops are methods with `for`/`while` loops:
  - `checkHit`'s two scans, `Shadow`, the recursive `Reflect`/`fresnalEffect`/`Refract`, and `antiAliasing`'s nested loops in `Scenes.Scene`;
  - `Intersect`, `BoundingBox`, `boxCollision` and the constructor in `ObjModels.ObjModel`;
  - `getMinValues`/`getMaxValues` in `Triangles`.
- Each method is proved against a specification, and the properties are proved about that specification:
  - the shading, mesh-test and min/max methods are proved equal to functions in the `Shading`, `ObjModels` and `Triangles` modules;
  - `AddEntity` and `AddPointLight` are proved against `Scenes.Insert`;
  - `Scene.Shadow` is proved against the predicate `Shading.Shadowed`;
  - the `ObjModel` constructor is proved against the result of `ObjModels.Parse`.

**Arithmetic.**
- `double` is modelled as mathematical `real`.
- `Math.Sqrt`, `Math.Tan` and `Math.PI` are supplied as a `MathLib` value. The only assumption made about them is that `sqrt` is the true non-negative square root of a non-negative argument (`IsSqrt`), and it is stated as a precondition wherever it is used.

**Sets.** The scene's `HashSet`s are modelled as sequences without duplicates, in insertion order. `checkHit`'s strict `<` test therefore keeps the earlier entity on a tie. Entities are values here, so value equality stands in for the reference identity of the source's entity objects (see "## Left out").

## Model

| member | source | states |
|---|---|---|
| Scenes.Insert | src/scene/Scene.cs:34-46 | `ISet.Add`: afterwards `x` is a member; the members are exactly the old ones plus `x`; old members keep their order; the size grows by one exactly when `x` was new; no duplicates is preserved |
| Scenes.InsertIdempotent | src/scene/Scene.cs:34-37 | adding the same entity twice leaves the same set as adding it once |
| Scenes.InsertCommutesAsSet | src/scene/Scene.cs:34-46 | adding two elements in either order gives the same members and the same size |
| Scenes.Scene.constructor | src/scene/Scene.cs:23-28 | a new scene has no entities and no lights; with a true square root it satisfies the shading precondition `Valid()` |
| Scenes.Scene.AddEntity | src/scene/Scene.cs:34-37 | the entity set becomes `Insert(old, entity)`; the lights are unchanged; no entity is held twice; `Valid()` is kept when the new entity's refractive index is positive |
| Scenes.Scene.AddPointLight | src/scene/Scene.cs:43-46 | the light set becomes `Insert(old, light)`; the entities are unchanged; no light is held twice; `Valid()` is kept |
| Scenes.Scene.Shadow | src/scene/Scene.cs:217-235 | the result is black exactly when some entity's hit along the offset ray towards the light comes sooner than the light's distance; otherwise it is the light colour passed in |
| Scenes.Scene.ClosestEntity | src/scene/Scene.cs:149-172 | the scan finds a hit exactly when the first-hit index `Rays.Closest` exists; that hit and that entity's material are returned; no hit leaves the material `NA` |
| Scenes.Scene.LightLoop | src/scene/Scene.cs:174-189 | the loop's total is `Shading.LightSum` over all lights for a diffuse material, and black for any other material |
| Scenes.Scene.CheckHit | src/scene/Scene.cs:148-202 | the colour the method computes equals the specification `Shading.CheckHit` at the same depth |
| Scenes.Scene.Reflect | src/scene/Scene.cs:237-253 | equals `Shading.Reflect`: black once the incremented depth reaches `MAXDEPTH`, otherwise the mirrored ray traced one level deeper |
| Scenes.Scene.FresnelEffect | src/scene/Scene.cs:255-277 | equals `Shading.FresnelEffect`: the refracted colour is traced only when `kr < 1`, and the result is `reflect * kr + refract * (1 - kr)` |
| Scenes.Scene.Refract | src/scene/Scene.cs:280-323 | equals `Shading.Refract`: black at the depth limit, otherwise the refracted ray traced one level deeper |
| Scenes.Scene.AntiAliasing | src/scene/Scene.cs:92-146 | the nested loops add exactly the N x N samples of `Shading.GridSum` and divide by N * N, which equals `Shading.AntiAliasing` |
| Scenes.Scene.SampleColumn | src/scene/Scene.cs:125-137 | the inner loop runs exactly N passes and adds the N samples of `Shading.ColumnSum` to the running total |
| Scenes.Scene.TraceSample | src/scene/Scene.cs:127-135 | one pass adds the colour traced from the eye at depth 0 through sample position (sx, sy) |
| Rays.Closest | src/scene/Scene.cs:157-172 | the index kept by the scan, when there is one, is below `n` and points at a reported hit |
| Rays.ClosestIsEarliest | src/scene/Scene.cs:154-172 | nothing is kept exactly when no entity reports a hit; the kept hit's time is minimal among all hits; it is strictly earlier than every hit before it, so ties go to the first |
| Shading.Diffuse | src/scene/Scene.cs:204-215 | each diffuse term lies in [0, 1] after `unclip`; a black (shadowed) light contributes black |
| Shading.DiffuseFacingAway | src/scene/Scene.cs:204-215 | with non-negative colours, a light behind the surface (cosine factor <= 0) contributes black |
| Shading.DiffuseUnclamped | src/scene/Scene.cs:204-215 | with colours and cosine factor in [0, 1], the term is exactly `color * lightColor * cos` (clamping changes nothing) |
| Shading.LightSum | src/scene/Scene.cs:174-189 | the light loop's total over `n` lights lies in [0, n] in every channel |
| Shading.BlockedLightAddsNothing | src/scene/Scene.cs:180-187 | a light that some entity blocks adds nothing to the total |
| Shading.UnclampedSum | src/scene/Scene.cs:185-187 | the total is not clamped again: `n` lights that each give full white sum to `n` in every channel |
| Shading.MissIsBlack | src/scene/Scene.cs:148-201 | a ray for which no entity reports a hit is black at every depth |
| Shading.EmptySceneIsBlack | src/scene/Scene.cs:148-201 | a scene without entities renders black everywhere |
| Shading.Trace | src/scene/Scene.cs:241-249 | a secondary ray at the depth limit is black |
| Shading.Reflect | src/scene/Scene.cs:241-244 | reflection at the depth limit is black |
| Shading.FresnelEffect | src/scene/Scene.cs:261-264 | the Fresnel mix at the depth limit is black |
| Shading.Refract | src/scene/Scene.cs:284-287 | refraction at the depth limit is black |
| Shading.CheckHitBound | src/scene/Scene.cs:148-201 | every colour the recursion produces lies in [0, number of lights] in every channel |
| Shading.ReflectBound | src/scene/Scene.cs:237-253 | a reflected colour lies in [0, number of lights] |
| Shading.RefractBound | src/scene/Scene.cs:280-323 | a refracted colour lies in [0, number of lights] |
| Shading.FresnelEffectBound | src/scene/Scene.cs:255-277 | the Fresnel mix is a convex blend of two bounded colours, so it lies in [0, number of lights] |
| Shading.ReflectionTurnsNormal | src/scene/Scene.cs:246 | for a unit normal, the reflected direction's component along the normal is the incident one negated |
| Shading.ReflectionKeepsLength | src/scene/Scene.cs:246 | for a unit normal, reflection keeps the direction's length |
| Shading.MatchedIndexStraight | src/scene/Scene.cs:289-314 | with refractive index 1 the refracted direction is the incident direction |
| Shading.Fresnel | src/scene/Scene.cs:325-352 | the reflected share `kr` lies in [0, 1], and it is 1 under total internal reflection (sin t >= 1) |
| Shading.FresnelHeadOn | src/scene/Scene.cs:325-352 | head-on entry (cosine -1) reflects the share ((n - 1) / (n + 1))^2 |
| Shading.FresnelMatched | src/scene/Scene.cs:325-352 | between media of equal index nothing is reflected, except at grazing incidence |
| Shading.LoopRunsNTimes | src/scene/Scene.cs:104-125 | the loop `for (x = pos + offset; x < pos + 1; x += step)` tests true on pass `i` exactly when `i < N`, so it runs N passes |
| Shading.SamplePositions | src/scene/Scene.cs:110-127 | the half-step offset is added twice, so pass `i` samples at `pos + (i + 1) / N` |
| Shading.SingleSampleAtCorner | src/scene/Scene.cs:110-127 | with one sample per axis the pixel is sampled at `pos + 1`, its far corner |
| Shading.ColumnBound | src/scene/Scene.cs:125-137 | `j` samples of a column total at most `j` times the number of lights |
| Shading.GridBound | src/scene/Scene.cs:120-138 | `i` columns of N samples total at most `i * N` times the number of lights |
| Shading.AntiAliasing | src/scene/Scene.cs:92-146 | the averaged pixel colour lies in [0, number of lights] |
| Colors.DivScalar | src/core/Color.cs:78-81 | dividing by a non-zero scalar is undone by multiplying by it |
| Colors.Div | src/core/Color.cs:89-92 | component-wise division by a colour with no zero channel is undone by multiplying by it |
| Colors.AddWithin | src/core/Color.cs:100-103 | the sum of colours in [0, a] and [0, b] lies in [0, a + b] |
| Colors.AddCommutative | src/core/Color.cs:100-103 | colour addition is commutative |
| Colors.AddAssociative | src/core/Color.cs:100-103 | colour addition is associative |
| Colors.Unclip | src/core/Color.cs:109-125 | the result lies in [0, 1]; each channel above 1 becomes 1, each below 0 becomes 0, and each in range is kept; a colour already in range is unchanged |
| Colors.BlendWithin | src/scene/Scene.cs:274 | `a * k + b * (1 - k)` with `k` in [0, 1] stays within the common bound of `a` and `b` |
| Entities.Intersect | src/scene/Scene.cs:158 | any entity's reported hit lies ahead of the origin (time > 0), at `origin + time * direction`, with the ray's direction as incident |
| Spheres.OnSphereAt | src/scene/primitives/Sphere.cs:38-42 | the point at time `t` is on the sphere exactly when `t` is a root of `a t^2 + b t + c` |
| Spheres.Intersect | src/scene/primitives/Sphere.cs:32-67 | a negative discriminant gives no hit; a hit is ahead of the origin, on the sphere, with the normal `(hitPos - center).Normalized()`, the ray's direction and the sphere's material |
| Spheres.IntersectIsNearest | src/scene/primitives/Sphere.cs:44-59 | a hit is the nearest point ahead of the origin on the sphere; no hit (for a moving ray) means no point ahead is on the sphere |
| Spheres.NearRoot | src/scene/primitives/Sphere.cs:49-50 | when `-b - sqrt(D) > 0` its root is positive, on the sphere and the earliest positive root |
| Spheres.FarRoot | src/scene/primitives/Sphere.cs:53-54 | when only `-b + sqrt(D) > 0` its root is positive, on the sphere and the only positive root |
| Spheres.NoHitAhead | src/scene/primitives/Sphere.cs:44-59 | when the discriminant is negative or neither root numerator is positive, no point ahead of a moving ray is on the sphere |
| Planes.MakePlane | src/scene/primitives/Plane.cs:20-25 | centre and material are kept; a non-zero normal is stored as the unit vector along it; a zero normal stays zero |
| Planes.Intersect | src/scene/primitives/Plane.cs:32-56 | a ray parallel to the plane misses; otherwise it hits exactly when the hit time is positive; the hit lies on the plane at `origin + time * direction` with the plane's normal and material |
| Triangles.Intersect | src/scene/primitives/Triangle.cs:35-64 | a parallel ray misses; otherwise it hits exactly when the plane's hit time is positive and the point passes the barycentric test; the hit lies on the triangle's plane with the unit face normal |
| Triangles.VerticesInside | src/scene/primitives/Triangle.cs:67-84 | for a non-degenerate triangle its three corners pass the barycentric inside test |
| Triangles.NormalArea | src/scene/primitives/Triangle.cs:40-71 | a non-degenerate triangle has positive area along its unit normal, so the inside test never divides by zero for it |
| Triangles.MinCorner | src/scene/primitives/Triangle.cs:117-141 | each coordinate is at most every vertex's and equals one vertex's |
| Triangles.MaxCorner | src/scene/primitives/Triangle.cs:91-115 | each coordinate is at least every vertex's, equals one vertex's, and is at least the min corner's |
| Triangles.MinValues | src/scene/primitives/Triangle.cs:117-141 | the loop over the three vertices returns `MinCorner` |
| Triangles.MaxValues | src/scene/primitives/Triangle.cs:91-115 | the loop over the three vertices returns `MaxCorner` |
| Vertices.MakeVertice | src/extensions/Vertice.cs:13-16 | the normal is kept; for a non-zero scale the raw position is recovered as `(vertex - offset) / scale`; scale 1 with no offset keeps the position |
| Faces.MakeFace | src/extensions/OBJFace.cs:10-19 | the face's triangle has the three scaled and offset corners in order and the material; the corner normals are kept |
| ObjModels.LineTypeOf | src/extensions/ObjModel.cs:47-53 | a line is a `v`, `vn` or `f` line exactly when its first token is that tag; anything else is ignored |
| ObjModels.ReadVector | src/extensions/ObjModel.cs:58-71 | a vector is read exactly when the first three arguments are numbers, and it holds them in order |
| ObjModels.Step | src/extensions/ObjModel.cs:55-88 | an unknown line changes nothing; a `v`/`vn` line appends its vector; an `f` line whose 1-based indices resolve appends the face built from them; any other line fails |
| ObjModels.Parse | src/extensions/ObjModel.cs:42-90 | a failure names a line before the end |
| ObjModels.FailureIsFinal | src/extensions/ObjModel.cs:42-90 | once a line fails, the load fails at that line whatever follows |
| ObjModels.FailureLocated | src/extensions/ObjModel.cs:42-90 | the failing line is the first one: the lines before it load, and that line itself fails |
| ObjModels.PrefixSucceeds | src/extensions/ObjModel.cs:42-90 | a successful load succeeds on every prefix, and the three lists only ever grow |
| ObjModels.ParseCounts | src/extensions/ObjModel.cs:55-88 | the vertex, normal and face lists hold one entry per `v`, `vn` and `f` line |
| ObjModels.FacesFromVertices | src/extensions/ObjModel.cs:74-86 | every face is built from vertices and normals of the final lists |
| ObjModels.ExtentsBound | src/extensions/ObjModel.cs:220-243 | the running minimum and maximum bound every corner and are attained by some corner |
| ObjModels.BoxTriangles | src/extensions/ObjModel.cs:245-267 | the box is 12 triangles of material `NA`, each with its corners at corners of the box |
| ObjModels.BoundingBoxOf | src/extensions/ObjModel.cs:207-271 | no faces gives no box; otherwise both extents come from the faces' minimum corners, and every face's minimum corner lies between them |
| ObjModels.PointBoxMissed | src/extensions/ObjModel.cs:245-276 | a box whose two extents coincide is hit by no ray |
| ObjModels.SingleFaceInvisible | src/extensions/ObjModel.cs:101-132 | a mesh of a single face has a one-point box, so no ray hits it |
| ObjModels.VertexNormalHit | src/extensions/ObjModel.cs:134-149 | the shaded hit keeps the hit's position, incident direction, time and material |
| ObjModels.NormalAtV0 | src/extensions/ObjModel.cs:139-146 | at corner v0 the interpolated normal is v1's normal |
| ObjModels.NormalAtV1 | src/extensions/ObjModel.cs:139-146 | at corner v1 the interpolated normal is v2's normal |
| ObjModels.NormalAtV2 | src/extensions/ObjModel.cs:139-146 | at corner v2 the interpolated normal is v0's normal |
| ObjModels.SharedNormalKept | src/extensions/ObjModel.cs:139-146 | when the three corner normals agree, the interpolated normal is that normal |
| ObjModels.FaceHitArea | src/extensions/ObjModel.cs:112-130 | a face the ray hits is non-degenerate, so the normal interpolation never divides by zero |
| ObjModels.MeshIntersectMeaning | src/extensions/ObjModel.cs:101-132 | a missed box gives no hit; otherwise there is no hit exactly when no face is hit, and a hit is the earliest face hit with its interpolated normal |
| ObjModels.ObjModel.constructor | src/extensions/ObjModel.cs:29-93 | the vertex, normal and face lists are those the line-by-line load produces, and the box is built from the faces |
| ObjModels.ObjModel.BoundingBox | src/extensions/ObjModel.cs:207-271 | the loop's box equals `BoundingBoxOf(faces)` |
| ObjModels.ObjModel.BoxCollision | src/extensions/ObjModel.cs:273-283 | true exactly when some box triangle reports a hit |
| ObjModels.ObjModel.Intersect | src/extensions/ObjModel.cs:101-132 | the method's result equals `MeshIntersect` of the model's faces, box and material |

## Left out

- Reading the OBJ file, splitting lines and `double.Parse`/`int.Parse`: the loader takes lines already split into a tag and tokens (numbers, `a//b` corner pairs, words). A number that does not parse, a missing argument and an out-of-range index are all failures of the same kind. The source throws on these; the model returns the failing line.
- `LineTypeOf` recognises exactly the tags `v`, `vn` and `f`. The two-argument `Enum.Parse` the source calls is case-sensitive, so `V` is ignored in both. It also accepts strings the model ignores:
  - numeric strings: `1`, `2` and `3` read as `v`, `vn` and `f`;
  - comma-separated name lists, whose values are OR-ed together: `v,vn` reads as `f`.
- ObjModels.ObjModel.constructor: requires the load to succeed, because the source's constructor throws otherwise.
- IEEE `double` behaviour: rounding, infinities and NaN. A zero vector normalizes to zero instead of NaN. A triangle of zero area fails the inside test instead of dividing by zero. How many passes the anti-aliasing loops run under rounding is not modelled either: with exact arithmetic they run exactly N.
- The infinite starting values of the bounding-box and min/max loops: for a mesh with no faces the model has no box at all. The source's box then has infinite corners that no ray meets.
- Shading.AntiAliasing: requires N > 0.
  - For N = 0 the source divides by zero.
  - For a negative N the step is negative, so the loop at Scene.cs:120 never reaches `xLimit` and does not end.
  - The model's `n: nat` and the loops' `decreases` clauses leave both cases out.
- `Math.Sqrt`, `Math.Tan` and `Math.PI` are parameters (`MathLib`). Only the square root's defining property is assumed.
- `Render`, the image output and the camera set-up around `antiAliasing`: they are I/O.
- `SceneEntity`, `Vector3`, `Ray`, `PointLight`, `Material` and `Image` are not part of this model as source files. The model uses value types with the fields the core reads.
- `RayHit` is a datatype rather than a class, since the core never mutates one.
- `ObjModel.triangleIntersect` (ObjModel.cs:151-200) is never called, so it is left out. So are the `ToString`/`toString` helpers.
- Entity identity: the source's entities are objects compared by reference. Two separately built spheres with equal fields are two members of the source's set but one member of the model's. Rendering is unaffected, since a second copy can never be the strictly earlier hit and only repeats the same shadow test.
- Refractive indices: every shading function and method requires each refractive entity's index to be positive (`Shading.PositiveIndex`), so that the Fresnel and Snell divisions are defined. The source accepts any index; a physical one is at least 1.
- `HashSet` iteration order is unspecified in the source. The model iterates in insertion order, which fixes which of two equally near entities `checkHit` keeps.
- The source calls `Shadow` for every non-`NA` material but uses its result only for diffuse surfaces. The model's light loop makes the same calls; the specification function `Shading.LightSum` mentions only the diffuse case.
- Shading.Diffuse: its contract gives the range and the black-light case. The exact value without clamping is stated separately by `DiffuseUnclamped`.
- Shading.CheckHit: it carries no contract of its own. Its properties are the lemmas `CheckHitBound`, `MissIsBlack` and `EmptySceneIsBlack`.
- Several behaviours that read as unintended are modelled as the code has them and stated by lemmas, not corrected:
  - the scene colour is clamped per light, not after the lights are summed (`UnclampedSum`);
  - anti-aliasing samples at `pos + (i + 1) / N` instead of the sub-pixel centres (`SamplePositions`, `SingleSampleAtCorner`);
  - the mesh bounding box spans only the faces' minimum corners, so a single-face mesh is invisible (`SingleFaceInvisible`);
  - the interpolated mesh normal takes each corner's weight from the next corner's normal (`NormalAtV0`, `NormalAtV1`, `NormalAtV2`).
