/**
  A mesh face: three corners built with the model's offset and scale, and
  the material they share. The source's `GetTriangle` returns the triangle
  it built once from the transformed corners; as every part here is an
  immutable value, `GetTriangle` forms that same triangle from the corners.
 */
module Faces {
  import opened Vectors
  import opened Rays
  import opened Vertices
  import opened Triangles

  datatype OBJFace = OBJFace(v0: Vertice, v1: Vertice, v2: Vertice, material: Material)

  function GetTriangle(f: OBJFace): Triangle {
    Triangle(f.v0.vertex, f.v1.vertex, f.v2.vertex, f.material)
  }

  /**
    The constructor: the three corners are transformed with one offset and
    one scale, the triangle's vertices are those positions in order
    v0, v1, v2 and carry the given material, and the corner normals are the
    given ones.
   */
  function MakeFace(v0: Vector3, v0N: Vector3, v1: Vector3, v1N: Vector3, v2: Vector3, v2N: Vector3,
                    offset: Vector3, scale: real, material: Material): (f: OBJFace)
    ensures GetTriangle(f) == Triangle(Add(Scale(scale, v0), offset), Add(Scale(scale, v1), offset),
                                       Add(Scale(scale, v2), offset), material)
    ensures f.v0.normal == v0N && f.v1.normal == v1N && f.v2.normal == v2N
  {
    OBJFace(MakeVertice(v0, v0N, offset, scale), MakeVertice(v1, v1N, offset, scale),
            MakeVertice(v2, v2N, offset, scale), material)
  }
}
