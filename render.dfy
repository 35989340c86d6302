/**
 * The frame bookkeeping of render.rs: a canvas of pixels and depths, the loop
 * that picks which polygon a ray shows, and the loop that paints every pixel.
 * The floating-point ray test, the colour blend and the ray directions are
 * parameters of the model.
 */
module Render {
  import opened MachineInts
  import opened Maybe
  import opened Geometry

  /** `Vector3<f64>`, with reals for the floats. */
  datatype Vector3 = Vector3(0: real, 1: real, 2: real)

  /** What `raytrace` reports for a hit: the ray parameter `t` and the point hit. */
  datatype Hit = Hit(t: real, point: Vector3)

  /** What `closest_polygon` returns: `(polygon, point, t)`. */
  datatype Closest = Closest(poly: Polygon, point: Vector3, t: real)

  /** `Canvas::raytrace(origin, direction, poly)`. */
  type Tracer = (Coord3D, Vector3, Polygon) -> Option<Hit>

  /** The running maximum of `closest_polygon`, which starts at `-f64::INFINITY`. */
  datatype Bound = NegInf | Fin(r: real)

  /** `t > max`. */
  predicate Above(t: real, max: Bound) {
    max.NegInf? || t > max.r
  }

  /**
   * The selection `closest_polygon` makes over `polys`: a hit replaces the one
   * kept so far only when its `t` is strictly larger.
   */
  function Farthest(trace: Tracer, origin: Coord3D, dir: Vector3, polys: seq<Polygon>): Option<Closest> {
    if polys == [] then None
    else
      var prev := Farthest(trace, origin, dir, polys[..|polys| - 1]);
      var p := polys[|polys| - 1];
      match trace(origin, dir, p)
      case None => prev
      case Some(hit) =>
        if prev.None? || hit.t > prev.value.t then Some(Closest(p, hit.point, hit.t)) else prev
  }

  /** The selection is `None` exactly when the ray misses every polygon. */
  lemma {:induction false} FarthestNoneIffAllMiss(trace: Tracer, origin: Coord3D, dir: Vector3, polys: seq<Polygon>)
    ensures Farthest(trace, origin, dir, polys).None? <==>
      forall i :: 0 <= i < |polys| ==> trace(origin, dir, polys[i]).None?
    decreases |polys|
  {
    if polys != [] {
      var init := polys[..|polys| - 1];
      FarthestNoneIffAllMiss(trace, origin, dir, init);
      assert forall i :: 0 <= i < |init| ==> init[i] == polys[i];
    }
  }

  /** The selected hit has a `t` no smaller than that of any hit: it is the farthest, not the closest. */
  lemma {:induction false} FarthestIsMaximal(trace: Tracer, origin: Coord3D, dir: Vector3, polys: seq<Polygon>)
    requires Farthest(trace, origin, dir, polys).Some?
    ensures forall i :: 0 <= i < |polys| && trace(origin, dir, polys[i]).Some? ==>
      trace(origin, dir, polys[i]).value.t <= Farthest(trace, origin, dir, polys).value.t
    decreases |polys|
  {
    var init := polys[..|polys| - 1];
    var prev := Farthest(trace, origin, dir, init);
    assert forall i :: 0 <= i < |init| ==> init[i] == polys[i];
    if prev.Some? {
      FarthestIsMaximal(trace, origin, dir, init);
    } else {
      FarthestNoneIffAllMiss(trace, origin, dir, init);
    }
  }

  /**
   * The selected polygon is one of `polys` with the point and `t` that
   * `raytrace` reported for it, and every earlier polygon either misses or
   * hits at a strictly smaller `t`: ties go to the first.
   */
  lemma {:induction false} FarthestIsFirstMaximalHit(trace: Tracer, origin: Coord3D, dir: Vector3, polys: seq<Polygon>)
    requires Farthest(trace, origin, dir, polys).Some?
    ensures var cl := Farthest(trace, origin, dir, polys).value;
      exists k :: 0 <= k < |polys| && polys[k] == cl.poly && trace(origin, dir, polys[k]) == Some(Hit(cl.t, cl.point)) &&
        forall i :: 0 <= i < k && trace(origin, dir, polys[i]).Some? ==> trace(origin, dir, polys[i]).value.t < cl.t
    decreases |polys|
  {
    var init := polys[..|polys| - 1];
    var last := |polys| - 1;
    var prev := Farthest(trace, origin, dir, init);
    var cl := Farthest(trace, origin, dir, polys).value;
    assert forall i :: 0 <= i < |init| ==> init[i] == polys[i];
    if prev == Some(cl) {
      FarthestIsFirstMaximalHit(trace, origin, dir, init);
      var k :| 0 <= k < |init| && init[k] == cl.poly && trace(origin, dir, init[k]) == Some(Hit(cl.t, cl.point)) &&
        forall i :: 0 <= i < k && trace(origin, dir, init[i]).Some? ==> trace(origin, dir, init[i]).value.t < cl.t;
      assert polys[k] == init[k];
    } else {
      if prev.Some? {
        FarthestIsMaximal(trace, origin, dir, init);
      } else {
        FarthestNoneIffAllMiss(trace, origin, dir, init);
      }
      assert trace(origin, dir, polys[last]) == Some(Hit(cl.t, cl.point));
    }
  }

  /** `Coord3D(0, 0, -1)`, the eye of `render`. */
  const Origin := Coord3D(0, 0, -1)

  /** `scene.shapes.iter().flat_map(|x| x.to_polygons())`. */
  function AllPolygons(shapes: seq<Shape>): seq<Polygon>
    requires forall i :: 0 <= i < |shapes| ==> Tessellable(shapes[i])
  {
    if shapes == [] then [] else ToPolygons(shapes[0]) + AllPolygons(shapes[1..])
  }

  /** The polygon list is the tessellations of the shapes, concatenated in shape order. */
  lemma {:induction false} AllPolygonsAppend(xs: seq<Shape>, ys: seq<Shape>)
    requires forall i :: 0 <= i < |xs| ==> Tessellable(xs[i])
    requires forall i :: 0 <= i < |ys| ==> Tessellable(ys[i])
    ensures forall i :: 0 <= i < |xs + ys| ==> Tessellable((xs + ys)[i])
    ensures AllPolygons(xs + ys) == AllPolygons(xs) + AllPolygons(ys)
    decreases |xs|
  {
    if xs == [] {
      assert xs + ys == ys;
    } else {
      assert (xs + ys)[1..] == xs[1..] + ys;
      AllPolygonsAppend(xs[1..], ys);
    }
  }

  lemma AllPolygonsOne(s: Shape)
    requires Tessellable(s)
    ensures AllPolygons([s]) == ToPolygons(s)
  {
    assert [s][1..] == [];
  }

  /** What pixel `(a, b)` shows once painted: the blend at the selected hit, or what was there on a miss. */
  function Painted(before: RGB, shot: Option<Closest>, color: (Polygon, Vector3) -> RGB): RGB {
    if shot.Some? then color(shot.value.poly, shot.value.point) else before
  }

  /** The depth of pixel `(a, b)` once painted. */
  function Depth(before: real, shot: Option<Closest>): real {
    if shot.Some? then shot.value.t else before
  }

  class Canvas {
    var width: u16
    var height: u16
    var pixels: seq<seq<RGB>>
    var zbuffer: seq<seq<real>>

    /** `height` rows of `width` pixels and depths. */
    ghost predicate Valid()
      reads this
    {
      |pixels| == height as int && |zbuffer| == height as int &&
      forall b :: 0 <= b < height as int ==> |pixels[b]| == width as int && |zbuffer[b]| == width as int
    }

    /** `Canvas::new(w, h)`: black pixels at depth `0.0`. */
    constructor (w: u16, h: u16)
      ensures Valid() && width == w && height == h
      ensures forall b, a :: 0 <= b < h as int && 0 <= a < w as int ==> pixels[b][a] == RGB(0, 0, 0)
      ensures forall b, a :: 0 <= b < h as int && 0 <= a < w as int ==> zbuffer[b][a] == 0.0
    {
      width := w;
      height := h;
      pixels := seq(h, _ => seq(w, _ => RGB(0, 0, 0)));
      zbuffer := seq(h, _ => seq(w, _ => 0.0));
    }

    /** `closest_polygon`: keeps the hit with the largest `t`, the first one on ties. */
    static method ClosestPolygon(origin: Coord3D, direction: Vector3, polys: seq<Polygon>, trace: Tracer)
      returns (r: Option<Closest>)
      ensures r == Farthest(trace, origin, direction, polys)
    {
      var max := NegInf;
      var poly: Option<(Polygon, Vector3)> := None;
      for i := 0 to |polys|
        invariant poly.Some? <==> max.Fin?
        invariant Farthest(trace, origin, direction, polys[..i]) ==
          if poly.Some? then Some(Closest(poly.value.0, poly.value.1, max.r)) else None
      {
        var p := polys[i];
        assert polys[..i + 1][..i] == polys[..i];
        match trace(origin, direction, p) {
          case Some(hit) =>
            if Above(hit.t, max) {
              max := Fin(hit.t);
              poly := Some((p, hit.point));
            }
          case None =>
        }
      }
      assert polys[..|polys|] == polys;
      r := if poly.Some? then Some(Closest(poly.value.0, poly.value.1, max.r)) else None;
    }

    /**
     * `render`: for every column `a` and row `b` casts the ray `ray(width,
     * height, a, b)` from `Origin` and, on a hit, writes the blended colour
     * and the hit's `t` at `[b][a]`; a miss leaves the pixel as it was.
     */
    method Render(scene: World, trace: Tracer, color: (Polygon, Vector3) -> RGB, ray: (u16, u16, int, int) -> Vector3)
      requires Valid()
      requires forall i :: 0 <= i < |scene.shapes| ==> Tessellable(scene.shapes[i])
      modifies this
      ensures Valid() && width == old(width) && height == old(height)
      ensures forall b, a :: 0 <= b < height as int && 0 <= a < width as int ==>
        pixels[b][a] == Painted(old(pixels[b][a]),
          Farthest(trace, Origin, ray(width, height, a, b), AllPolygons(scene.shapes)), color)
      ensures forall b, a :: 0 <= b < height as int && 0 <= a < width as int ==>
        zbuffer[b][a] == Depth(old(zbuffer[b][a]),
          Farthest(trace, Origin, ray(width, height, a, b), AllPolygons(scene.shapes)))
    {
      ghost var p0, z0 := pixels, zbuffer;
      var poly := AllPolygons(scene.shapes);
      for a := 0 to width
        invariant Valid() && width == old(width) && height == old(height)
        invariant forall y, x :: 0 <= y < height as int && 0 <= x < width as int ==>
          pixels[y][x] == if x < a as int then Painted(p0[y][x], Farthest(trace, Origin, ray(width, height, x, y), poly), color)
                          else p0[y][x]
        invariant forall y, x :: 0 <= y < height as int && 0 <= x < width as int ==>
          zbuffer[y][x] == if x < a as int then Depth(z0[y][x], Farthest(trace, Origin, ray(width, height, x, y), poly))
                           else z0[y][x]
      {
        PaintColumn(a, poly, trace, color, ray);
      }
    }

    /** One pass of the inner loop of `render`: `for b in 0..height` at column `a`. */
    method PaintColumn(a: u16, poly: seq<Polygon>, trace: Tracer, color: (Polygon, Vector3) -> RGB,
                       ray: (u16, u16, int, int) -> Vector3)
      requires Valid() && a < width
      modifies this
      ensures Valid() && width == old(width) && height == old(height)
      ensures forall y, x :: 0 <= y < height as int && 0 <= x < width as int ==>
        pixels[y][x] == if x == a as int then Painted(old(pixels[y][x]), Farthest(trace, Origin, ray(width, height, x, y), poly), color)
                        else old(pixels[y][x])
      ensures forall y, x :: 0 <= y < height as int && 0 <= x < width as int ==>
        zbuffer[y][x] == if x == a as int then Depth(old(zbuffer[y][x]), Farthest(trace, Origin, ray(width, height, x, y), poly))
                         else old(zbuffer[y][x])
    {
      ghost var p0, z0 := pixels, zbuffer;
      var origin := Coord3D(0, 0, -1);
      for b := 0 to height
        invariant Valid() && width == old(width) && height == old(height)
        invariant forall y, x :: 0 <= y < height as int && 0 <= x < width as int ==>
          pixels[y][x] == if x == a as int && y < b as int
                          then Painted(p0[y][x], Farthest(trace, Origin, ray(width, height, x, y), poly), color)
                          else p0[y][x]
        invariant forall y, x :: 0 <= y < height as int && 0 <= x < width as int ==>
          zbuffer[y][x] == if x == a as int && y < b as int
                           then Depth(z0[y][x], Farthest(trace, Origin, ray(width, height, x, y), poly))
                           else z0[y][x]
      {
        var dir := ray(width, height, a, b);
        var closest := ClosestPolygon(origin, dir, poly, trace);
        if closest.Some? {
          var cl := closest.value;
          pixels := pixels[b := pixels[b][a := color(cl.poly, cl.point)]];
          zbuffer := zbuffer[b := zbuffer[b][a := cl.t]];
        }
      }
    }
  }
}
