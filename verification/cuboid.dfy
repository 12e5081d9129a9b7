/** `TK8_cube.py`: an axis-aligned box given by its centre and its three
    edge lengths, drawn as eight vertices and six quadrilateral faces, and
    the slider callback that keeps a small box inside the unit cube. */
module Cuboid {
  import opened Numerics

  datatype Vec3 = Vec3(x: real, y: real, z: real)

  function Half(size: Vec3): Vec3 {
    Vec3(size.x / 2.0, size.y / 2.0, size.z / 2.0)
  }

  /** The corner of index `i` (0 to 7): bit pattern `x` high for 1 and 2
      modulo 4, `y` high for 2 and 3 modulo 4, `z` high from 4 on. This is
      the reference the vertex list is checked against. */
  function Corner(c: Vec3, size: Vec3, i: int): (p: Vec3) {
    var h := Half(size);
    Vec3(
      if i % 4 == 1 || i % 4 == 2 then c.x + h.x else c.x - h.x,
      if i % 4 == 2 || i % 4 == 3 then c.y + h.y else c.y - h.y,
      if 4 <= i then c.z + h.z else c.z - h.z)
  }

  /** `draw_box`'s vertex array: the bottom face counter-clockwise, then the
      top face above it. Vertex 6 is the opposite corner of vertex 0. */
  function Vertices(c: Vec3, size: Vec3): (v: seq<Vec3>)
    ensures |v| == 8
    ensures forall i :: 0 <= i < 8 ==> v[i] == Corner(c, size, i)
    ensures v[6].x - v[0].x == size.x && v[6].y - v[0].y == size.y && v[6].z - v[0].z == size.z
  {
    var sx, sy, sz := size.x / 2.0, size.y / 2.0, size.z / 2.0;
    [ Vec3(c.x - sx, c.y - sy, c.z - sz),
      Vec3(c.x + sx, c.y - sy, c.z - sz),
      Vec3(c.x + sx, c.y + sy, c.z - sz),
      Vec3(c.x - sx, c.y + sy, c.z - sz),
      Vec3(c.x - sx, c.y - sy, c.z + sz),
      Vec3(c.x + sx, c.y - sy, c.z + sz),
      Vec3(c.x + sx, c.y + sy, c.z + sz),
      Vec3(c.x - sx, c.y + sy, c.z + sz) ]
  }

  /** A box with positive edges has eight different corners. */
  lemma CornersDistinct(c: Vec3, size: Vec3, i: int, j: int)
    requires 0.0 < size.x && 0.0 < size.y && 0.0 < size.z
    requires 0 <= i < 8 && 0 <= j < 8 && i != j
    ensures Vertices(c, size)[i] != Vertices(c, size)[j]
  {
  }

  /** The vertex indices of the six faces: bottom, top, front, back, right,
      left. */
  const FACES: seq<seq<int>> :=
    [[0, 1, 2, 3], [4, 5, 6, 7], [0, 1, 5, 4], [2, 3, 7, 6], [1, 2, 6, 5], [4, 7, 3, 0]]

  /** The axis across which face `f` lies: 2 for `z`, 1 for `y`, 0 for `x`. */
  function FaceAxis(f: int): int {
    if f < 2 then 2 else if f < 4 then 1 else 0
  }

  function Coordinate(p: Vec3, axis: int): real {
    if axis == 0 then p.x else if axis == 1 then p.y else p.z
  }

  /** The number of coordinates in which two points differ. */
  function Differences(p: Vec3, q: Vec3): int {
    (if p.x != q.x then 1 else 0) + (if p.y != q.y then 1 else 0) + (if p.z != q.z then 1 else 0)
  }

  /** Every face is flat and axis-aligned: its four vertices share the
      coordinate along the face's axis. */
  lemma FacesAreFlat(c: Vec3, size: Vec3, f: int, k: int)
    requires 0 <= f < 6 && 0 <= k < 4
    ensures Coordinate(Vertices(c, size)[FACES[f][k]], FaceAxis(f)) ==
      Coordinate(Vertices(c, size)[FACES[f][0]], FaceAxis(f))
  {
  }

  /** Walking round a face, each step runs along one box edge: consecutive
      vertices (cyclically) differ in exactly one coordinate, so no face is
      drawn as a crossed quadrilateral. */
  lemma FaceEdgesAreBoxEdges(c: Vec3, size: Vec3, f: int, k: int)
    requires 0.0 < size.x && 0.0 < size.y && 0.0 < size.z
    requires 0 <= f < 6 && 0 <= k < 4
    ensures Differences(Vertices(c, size)[FACES[f][k]], Vertices(c, size)[FACES[f][(k + 1) % 4]]) == 1
  {
  }

  /** The number of faces that use vertex `i`. */
  function FaceCount(i: int, faces: seq<seq<int>>): (n: nat)
    ensures n <= |faces|
  {
    if |faces| == 0 then 0
    else FaceCount(i, faces[..|faces| - 1]) + (if i in faces[|faces| - 1] then 1 else 0)
  }

  /** The faces close the box: every vertex meets exactly three faces. */
  lemma EveryVertexOnThreeFaces(i: int)
    requires 0 <= i < 8
    ensures FaceCount(i, FACES) == 3
  {
    assert FACES[..6] == FACES;
    FaceCountStep(i, 6);
    FaceCountStep(i, 5);
    FaceCountStep(i, 4);
    FaceCountStep(i, 3);
    FaceCountStep(i, 2);
    FaceCountStep(i, 1);
  }

  lemma FaceCountStep(i: int, k: int)
    requires 1 <= k <= |FACES|
    ensures FaceCount(i, FACES[..k]) == FaceCount(i, FACES[..k - 1]) + (if i in FACES[k - 1] then 1 else 0)
  {
    assert FACES[..k][..k - 1] == FACES[..k - 1];
  }

  /** `update`: each centre coordinate clipped into `[s/2, 1 - s/2]`. */
  function Place(c: Vec3, size: Vec3): (p: Vec3)
    ensures size.x <= 1.0 ==> size.x / 2.0 <= p.x <= 1.0 - size.x / 2.0
    ensures size.y <= 1.0 ==> size.y / 2.0 <= p.y <= 1.0 - size.y / 2.0
    ensures size.z <= 1.0 ==> size.z / 2.0 <= p.z <= 1.0 - size.z / 2.0
  {
    Vec3(
      Clip(c.x, size.x / 2.0, 1.0 - size.x / 2.0),
      Clip(c.y, size.y / 2.0, 1.0 - size.y / 2.0),
      Clip(c.z, size.z / 2.0, 1.0 - size.z / 2.0))
  }

  predicate InUnitCube(p: Vec3) {
    0.0 <= p.x <= 1.0 && 0.0 <= p.y <= 1.0 && 0.0 <= p.z <= 1.0
  }

  /** After the callback the small box lies inside the unit cube for every
      edge length the sliders allow, and a box that already fits is not
      moved. */
  lemma PlacedBoxInside(c: Vec3, size: Vec3)
    requires 0.0 <= size.x <= 1.0 && 0.0 <= size.y <= 1.0 && 0.0 <= size.z <= 1.0
    ensures forall i :: 0 <= i < 8 ==> InUnitCube(Vertices(Place(c, size), size)[i])
    ensures InUnitCube(Vertices(c, size)[0]) && InUnitCube(Vertices(c, size)[6]) ==> Place(c, size) == c
  {
  }

  /** The volume in the title, `sx * sy * sz`. */
  function Volume(size: Vec3): (v: real) {
    size.x * size.y * size.z
  }

  /** The title's volume is the product of the box's extents, and a box
      with edges in `[0, 1]` holds at most the unit cube. */
  lemma VolumeOfBox(c: Vec3, size: Vec3)
    ensures var v := Vertices(c, size);
      Volume(size) == (v[6].x - v[0].x) * (v[6].y - v[0].y) * (v[6].z - v[0].z)
    ensures 0.0 <= size.x <= 1.0 && 0.0 <= size.y <= 1.0 && 0.0 <= size.z <= 1.0 ==>
      0.0 <= Volume(size) <= 1.0
  {
    if 0.0 <= size.x <= 1.0 && 0.0 <= size.y <= 1.0 && 0.0 <= size.z <= 1.0 {
      UnitProduct(size.x, size.y);
      UnitProduct(size.x * size.y, size.z);
    }
  }

  lemma UnitProduct(a: real, b: real)
    requires 0.0 <= a <= 1.0 && 0.0 <= b <= 1.0
    ensures 0.0 <= a * b <= 1.0
  {
    MulNonNegMono(a, b, 1.0);
    assert a * b <= a * 1.0;
    assert a * 1.0 == a;
    MulNonNegMono(a, 0.0, b);
  }

  /** The opening title: a 0.3 cube holds 0.027. */
  lemma InitialVolume()
    ensures Volume(Vec3(0.3, 0.3, 0.3)) == 0.027
  {
  }
}
