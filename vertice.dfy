/**
  A mesh corner: its position after the model's scale and offset, and its
  normal as read. The datatype's fields are the getters `getVertex` and
  `getNormal`; reading them changes nothing.
 */
module Vertices {
  import opened Vectors

  datatype Vertice = Vertice(vertex: Vector3, normal: Vector3)

  /**
    The constructor: the position is `raw * scale + offset`, the normal is
    kept as given. The transform can be undone for a non-zero scale, and
    with scale 1 and offset 0 it keeps the position.
   */
  function MakeVertice(raw: Vector3, rawNormal: Vector3, offset: Vector3, scale: real): (v: Vertice)
    ensures v.normal == rawNormal
    ensures scale != 0.0 ==> Scale(1.0 / scale, Sub(v.vertex, offset)) == raw
    ensures scale == 1.0 && offset == Zero ==> v.vertex == raw
  {
    Vertice(Add(Scale(scale, raw), offset), rawNormal)
  }
}
