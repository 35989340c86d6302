/**
 * The integer part of geometry.rs: colours, integer coordinates and their
 * projections onto the axis planes, and the tessellation of a shape into
 * triangles.
 */
module Geometry {
  import opened MachineInts

  datatype RGB = RGB(0: u8, 1: u8, 2: u8)

  datatype Dimension = X | Y | Z

  datatype Axis = Axis(0: Dimension)

  datatype Plane = Plane(0: Dimension)

  datatype Coord2D = Coord2D(0: i32, 1: i32) {
    /**
     * The `i32` operations of `Coord2D::rotate` do not overflow (Rust checks
     * them in debug builds).
     */
    predicate RotateFits(c: i32, s: i32) {
      InI32(this.0 * c) && InI32(this.1 * s) && InI32(this.0 * c - this.1 * s) &&
      InI32(this.0 * s) && InI32(this.1 * c) && InI32(this.0 * s + this.1 * c)
    }

    /**
     * `Coord2D::rotate`, with `c` and `s` the truncated cosine and sine of the
     * angle (`a.cos() as i32`, `a.sin() as i32`), which lie in {-1, 0, 1}.
     */
    function Rotate(c: i32, s: i32): (r: Coord2D)
      requires -1 <= c <= 1 && -1 <= s <= 1
      requires RotateFits(c, s)
      ensures (c, s) == (1, 0) ==> r == this
      ensures (c, s) == (0, 0) ==> r == Coord2D(0, 0)
      ensures (c, s) == (-1, 0) ==> r.0 == -this.0 && r.1 == -this.1
    {
      Coord2D(this.0 * c - this.1 * s, this.0 * s + this.1 * c)
    }

    /** `Coord2D::to_space`: puts `val` on the plane's own axis. */
    function ToSpace(plane: Plane, val: i32): (r: Coord3D)
      ensures r.AtPlane(plane) == this
      ensures r.Index(Axis(plane.0)) == val
    {
      match plane.0
      case X => Coord3D(val, this.0, this.1)
      case Y => Coord3D(this.0, val, this.1)
      case Z => Coord3D(this.0, this.1, val)
    }
  }

  datatype Coord3D = Coord3D(0: i32, 1: i32, 2: i32) {
    /** `Index<Axis> for Coord3D`. */
    function Index(index: Axis): i32 {
      match index.0
      case X => this.0
      case Y => this.1
      case Z => this.2
    }

    /** `Coord3D::at_plane`: drops the plane's own component. */
    function AtPlane(plane: Plane): Coord2D {
      match plane.0
      case X => Coord2D(this.1, this.2)
      case Y => Coord2D(this.0, this.2)
      case Z => Coord2D(this.0, this.1)
    }

    /** `Coord3D::rotate`: rotates within the plane, keeping the component along its axis. */
    function Rotate(plane: Plane, c: i32, s: i32): (r: Coord3D)
      requires -1 <= c <= 1 && -1 <= s <= 1
      requires AtPlane(plane).RotateFits(c, s)
      ensures r.Index(Axis(plane.0)) == Index(Axis(plane.0))
      ensures r.AtPlane(plane) == AtPlane(plane).Rotate(c, s)
      ensures (c, s) == (1, 0) ==> r == this
    {
      AtPlane(plane).Rotate(c, s).ToSpace(plane, Index(Axis(plane.0)))
    }
  }

  /** Indexing reads the component of the same name. */
  lemma IndexReadsComponent(c: Coord3D)
    ensures c.Index(Axis(X)) == c.0 && c.Index(Axis(Y)) == c.1 && c.Index(Axis(Z)) == c.2
  {
  }

  /** Indexing by the three axes determines a coordinate completely. */
  lemma IndexDetermines(c: Coord3D, d: Coord3D)
    ensures (forall a: Axis :: c.Index(a) == d.Index(a)) <==> c == d
  {
    if forall a: Axis :: c.Index(a) == d.Index(a) {
      assert c.Index(Axis(X)) == d.Index(Axis(X));
      assert c.Index(Axis(Y)) == d.Index(Axis(Y));
      assert c.Index(Axis(Z)) == d.Index(Axis(Z));
    }
  }

  /** `at_plane` and `to_space` are mutual inverses. */
  lemma AtPlaneToSpaceInverse(c: Coord3D, q: Coord2D, plane: Plane, val: i32)
    ensures c.AtPlane(plane).ToSpace(plane, c.Index(Axis(plane.0))) == c
    ensures q.ToSpace(plane, val).AtPlane(plane) == q
    ensures q.ToSpace(plane, val).Index(Axis(plane.0)) == val
  {
  }

  /** `at_plane` keeps the other two components in X, Y, Z order. */
  lemma AtPlaneKeepsOrder(c: Coord3D)
    ensures c.AtPlane(Plane(X)) == Coord2D(c.Index(Axis(Y)), c.Index(Axis(Z)))
    ensures c.AtPlane(Plane(Y)) == Coord2D(c.Index(Axis(X)), c.Index(Axis(Z)))
    ensures c.AtPlane(Plane(Z)) == Coord2D(c.Index(Axis(X)), c.Index(Axis(Y)))
  {
  }

  datatype Primitive = TriangleList | TriangleStrip

  datatype Vertex = Vertex(coords: Coord3D, color: RGB)

  /** A triangle, `Polygon([Vertex; 3])`. */
  datatype Polygon = Polygon(0: Vertex, 1: Vertex, 2: Vertex)

  datatype Shape = Shape(verts: seq<Vertex>, primitive: Primitive)

  datatype World = World(shapes: seq<Shape>, lighting: seq<Coord3D>)

  /**
   * `chunks(3)` on a slice whose length is a multiple of three: consecutive,
   * non-overlapping triples.
   */
  function Chunks(v: seq<Vertex>): (r: seq<Polygon>)
    requires |v| % 3 == 0
    ensures |r| == |v| / 3
    ensures forall i :: 0 <= i < |r| ==> r[i] == Polygon(v[3 * i], v[3 * i + 1], v[3 * i + 2])
    decreases |v|
  {
    if |v| == 0 then []
    else
      var rest := Chunks(v[3..]);
      assert forall i :: 0 <= i < |rest| ==> 3 * (i + 1) == 3 * i + 3;
      [Polygon(v[0], v[1], v[2])] + rest
  }

  /** `windows(3)`: one triangle per sliding window of three vertices. */
  function Windows(v: seq<Vertex>): (r: seq<Polygon>)
    ensures |r| == if |v| < 3 then 0 else |v| - 2
    ensures forall i :: 0 <= i < |r| ==> r[i] == Polygon(v[i], v[i + 1], v[i + 2])
    decreases |v|
  {
    if |v| < 3 then []
    else [Polygon(v[0], v[1], v[2])] + Windows(v[1..])
  }

  /**
   * A `TriangleList` shape must have a multiple of three vertices: on a short
   * last chunk the closure's `x[1]` or `x[2]` is out of bounds and panics.
   */
  predicate Tessellable(s: Shape) {
    s.primitive == TriangleList ==> |s.verts| % 3 == 0
  }

  /** `Into<Vec<Polygon>> for Shape`. */
  function ToPolygons(s: Shape): (r: seq<Polygon>)
    requires Tessellable(s)
    ensures s.primitive == TriangleList ==> |r| == |s.verts| / 3
    ensures s.primitive == TriangleStrip ==> |r| == if |s.verts| < 3 then 0 else |s.verts| - 2
  {
    match s.primitive
    case TriangleList => Chunks(s.verts)
    case TriangleStrip => Windows(s.verts)
  }

  /** The vertices of a triangle sequence, three per triangle, in order. */
  function Vertices(ps: seq<Polygon>): seq<Vertex> {
    if ps == [] then [] else [ps[0].0, ps[0].1, ps[0].2] + Vertices(ps[1..])
  }

  /** Re-assembles a strip: the first triangle's first two vertices, then each triangle's last. */
  function StripVertices(ps: seq<Polygon>): seq<Vertex>
    requires ps != []
  {
    [ps[0].0, ps[0].1] + LastVertices(ps)
  }

  function LastVertices(ps: seq<Polygon>): seq<Vertex> {
    if ps == [] then [] else [ps[0].2] + LastVertices(ps[1..])
  }

  /** A triangle list hands every vertex on unchanged and in order. */
  lemma {:induction false} ChunksKeepVertices(v: seq<Vertex>)
    requires |v| % 3 == 0
    ensures Vertices(Chunks(v)) == v
    decreases |v|
  {
    if |v| > 0 {
      ChunksKeepVertices(v[3..]);
      assert v == [v[0], v[1], v[2]] + v[3..];
    }
  }

  /** A strip of at least three vertices can be re-assembled from its triangles. */
  lemma WindowsKeepVertices(v: seq<Vertex>)
    requires |v| >= 3
    ensures Windows(v) != [] && StripVertices(Windows(v)) == v
  {
    var w := Windows(v);
    LastVerticesOfWindows(v);
    assert w[0] == Polygon(v[0], v[1], v[2]);
    assert StripVertices(w) == [v[0], v[1]] + v[2..];
    assert v == [v[0], v[1]] + v[2..];
  }

  lemma {:induction false} LastVerticesOfWindows(v: seq<Vertex>)
    requires |v| >= 2
    ensures LastVertices(Windows(v)) == v[2..]
    decreases |v|
  {
    if |v| >= 3 {
      LastVerticesOfWindows(v[1..]);
      assert v[2..] == [v[2]] + v[1..][2..];
    }
  }

  /** Tessellation neither invents nor alters vertices: every vertex of every triangle is one of the shape's. */
  lemma TessellationVerticesFromShape(s: Shape, i: int)
    requires Tessellable(s) && 0 <= i < |ToPolygons(s)|
    ensures ToPolygons(s)[i].0 in s.verts && ToPolygons(s)[i].1 in s.verts && ToPolygons(s)[i].2 in s.verts
  {
    var v := s.verts;
    if s.primitive == TriangleList {
      assert i < |v| / 3;
      assert 3 * i + 2 < |v|;
      assert ToPolygons(s)[i] == Polygon(v[3 * i], v[3 * i + 1], v[3 * i + 2]);
    } else {
      assert ToPolygons(s)[i] == Polygon(v[i], v[i + 1], v[i + 2]);
    }
  }
}
