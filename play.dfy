/**
 * The play screen of play.rs: the scene it draws from the maze (one
 * screen-space quad per cell and one light at the player) and its
 * transitions back to the menu.
 */
module Play {
  import opened MachineInts
  import opened Maybe
  import opened Geometry
  import opened Inputs
  import opened State
  import opened Menu
  import Labyrinth

  const ScreenWidth: nat := 640
  const ScreenHeight: nat := 480

  /** The colours and depths of wall and open cells. */
  const WallColor := RGB(0x61, 0x40, 0x20)
  const OpenColor := RGB(0x40, 0x20, 0x61)
  const WallDepth: i32 := 3
  const OpenDepth: i32 := 4

  /** `field.width()`: the length of a row, 0 for an empty field. */
  function Width(g: Labyrinth.Grid): nat {
    if g == [] then 0 else |g[0]|
  }

  /** The most columns and rows for which `(y + 1) * 640` and `(x + 1) * 480` still fit in an i32. */
  const MaxColumns: nat := 3355443
  const MaxRows: nat := 4473924

  /** A field `scene` can draw: rectangular, and small enough that its i32 arithmetic does not overflow. */
  ghost predicate Drawable(g: Labyrinth.Grid) {
    Labyrinth.Rect(g, |g|, Width(g)) && Width(g) <= MaxColumns && |g| <= MaxRows
  }

  lemma MulMonotone(a: int, b: int, n: int)
    requires 0 <= a <= b && 0 <= n
    ensures a * n <= b * n
  {
    assert b * n == a * n + (b - a) * n;
  }

  lemma DivMonotone(p: int, q: int, d: int)
    requires 0 <= p <= q && 0 < d
    ensures p / d <= q / d
  {
    if p / d > q / d {
      MulMonotone(q / d + 1, p / d, d);
    }
  }

  lemma DivOfMultiple(n: int, d: int)
    requires 0 <= n && 0 < d
    ensures (d * n) / d == n
  {
    var q, r := (d * n) / d, (d * n) % d;
    assert d * n == d * q + r;
    assert d * (n - q) == r;
    if n - q >= 1 {
      MulMonotone(1, n - q, d);
    } else if n - q <= -1 {
      MulMonotone(1, q - n, d);
    }
  }

  /**
   * `a * n / d` for a position `a` of `d`: a screen coordinate from 0 to
   * `n`, 0 at the first cell edge and `n` at the last.
   */
  function Scale(a: nat, n: nat, d: nat): (r: nat)
    requires 0 < d && a <= d
    ensures r <= n
    ensures a == 0 ==> r == 0
    ensures a == d ==> r == n
  {
    MulMonotone(a, d, n);
    DivMonotone(a * n, d * n, d);
    DivOfMultiple(n, d);
    a * n / d
  }

  /** Cell edges are laid out left to right and bottom to top: the scaled coordinates never decrease. */
  lemma ScaleMonotone(a: nat, b: nat, n: nat, d: nat)
    requires 0 < d && a <= b <= d
    ensures Scale(a, n, d) <= Scale(b, n, d)
  {
    MulMonotone(a, b, n);
    DivMonotone(a * n, b * n, d);
  }

  /**
   * The bounds are exact: every product `scene` forms stays below 2^31,
   * and one more column or row would overflow.
   */
  lemma DrawableFitsI32(g: Labyrinth.Grid, x: nat, y: nat)
    requires Drawable(g) && x < |g| && y < Width(g)
    ensures (y + 1) * ScreenWidth < 0x8000_0000 && (x + 1) * ScreenHeight < 0x8000_0000
    ensures (MaxColumns + 1) * ScreenWidth >= 0x8000_0000 && (MaxRows + 1) * ScreenHeight >= 0x8000_0000
  {
    MulMonotone(y + 1, MaxColumns, ScreenWidth);
    MulMonotone(x + 1, MaxRows, ScreenHeight);
  }

  /**
   * The quad of cell `(x, y)`: its corners, as a `TriangleStrip` of four
   * vertices, in the colour and at the depth of a wall or open cell.
   */
  function Quad(g: Labyrinth.Grid, x: nat, y: nat): (s: Shape)
    requires Drawable(g) && x < |g| && y < Width(g)
  {
    var w, h := Width(g), |g|;
    var z := if g[x][y] then WallDepth else OpenDepth;
    var r := if g[x][y] then WallColor else OpenColor;
    Shape([Vertex(Coord3D(Scale(y, ScreenWidth, w), Scale(x + 1, ScreenHeight, h), z), r),
           Vertex(Coord3D(Scale(y + 1, ScreenWidth, w), Scale(x + 1, ScreenHeight, h), z), r),
           Vertex(Coord3D(Scale(y, ScreenWidth, w), Scale(x, ScreenHeight, h), z), r),
           Vertex(Coord3D(Scale(y + 1, ScreenWidth, w), Scale(x, ScreenHeight, h), z), r)],
          TriangleStrip)
  }

  /** What a quad is: a four-vertex strip on the 640×480 screen in one colour, wall or open by the cell. */
  lemma QuadShape(g: Labyrinth.Grid, x: nat, y: nat)
    requires Drawable(g) && x < |g| && y < Width(g)
    ensures var s := Quad(g, x, y);
      |s.verts| == 4 && s.primitive == TriangleStrip &&
      forall i :: 0 <= i < 4 ==>
        0 <= s.verts[i].coords.0 <= ScreenWidth as int && 0 <= s.verts[i].coords.1 <= ScreenHeight as int &&
        (s.verts[i].color == WallColor <==> g[x][y]) &&
        s.verts[i].color == (if g[x][y] then WallColor else OpenColor) &&
        s.verts[i].coords.2 == (if g[x][y] then WallDepth else OpenDepth)
  {
  }

  /** A quad is drawn as two triangles, sharing the diagonal from corner 1 to corner 2. */
  lemma QuadTriangles(g: Labyrinth.Grid, x: nat, y: nat)
    requires Drawable(g) && x < |g| && y < Width(g)
    ensures Tessellable(Quad(g, x, y))
    ensures var v := Quad(g, x, y).verts;
      ToPolygons(Quad(g, x, y)) == [Polygon(v[0], v[1], v[2]), Polygon(v[1], v[2], v[3])]
  {
    var v := Quad(g, x, y).verts;
    assert v[1..][1..] == [v[2], v[3]];
  }

  /**
   * Neighbouring quads meet: the right edge of `(x, y)` is the left edge of
   * `(x, y + 1)`, and its top edge is the bottom edge of `(x + 1, y)`; no
   * quad has a negative width or height.
   */
  lemma QuadsTile(g: Labyrinth.Grid, x: nat, y: nat)
    requires Drawable(g) && x < |g| && y < Width(g)
    ensures var q := Quad(g, x, y).verts;
      q[2].coords.0 <= q[3].coords.0 && q[2].coords.1 <= q[0].coords.1
    ensures y + 1 < Width(g) ==> Quad(g, x, y).verts[1].coords.0 == Quad(g, x, y + 1).verts[0].coords.0
    ensures x + 1 < |g| ==> Quad(g, x, y).verts[0].coords.1 == Quad(g, x + 1, y).verts[2].coords.1
  {
    ScaleMonotone(y, y + 1, ScreenWidth, Width(g));
    ScaleMonotone(x, x + 1, ScreenHeight, |g|);
  }

  /** The quads of cells `(x, 0)` to `(x, y - 1)`, in that order. */
  function RowQuads(g: Labyrinth.Grid, x: nat, y: nat): seq<Shape>
    requires Drawable(g) && x < |g| && y <= Width(g)
  {
    if y == 0 then [] else RowQuads(g, x, y - 1) + [Quad(g, x, y - 1)]
  }

  /** The quads of rows 0 to `x - 1`, row by row. */
  function Quads(g: Labyrinth.Grid, x: nat): seq<Shape>
    requires Drawable(g) && x <= |g|
  {
    if x == 0 then [] else Quads(g, x - 1) + RowQuads(g, x - 1, Width(g))
  }

  /** The light at the player, cast to i32 as `player.x as i32` does. */
  function Light(p: Labyrinth.Point): (r: Coord3D)
    ensures r.2 == 1
    ensures InI32(p.x) ==> r.0 == p.x
    ensures InI32(p.y) ==> r.1 == p.y
  {
    Coord3D(WrapI32(p.x), WrapI32(p.y), 1)
  }

  /**
   * The world `scene` draws: nothing without a game; with one, exactly one
   * light, at the player, and one quad per cell.
   */
  ghost function SceneOf(game: Option<Game>): (w: World)
    requires game.Some? ==> Drawable(game.value.field)
    ensures game.None? ==> w.shapes == [] && w.lighting == []
    ensures game.Some? ==> w.lighting == [Light(game.value.player)]
    ensures game.Some? ==> |w.shapes| == |game.value.field| * Width(game.value.field)
  {
    match game
    case None => World([], [])
    case Some(gm) => QuadsLength(gm.field, |gm.field|); World(Quads(gm.field, |gm.field|), [Light(gm.player)])
  }

  lemma {:induction false} RowQuadsLayout(g: Labyrinth.Grid, x: nat, y: nat)
    requires Drawable(g) && x < |g| && y <= Width(g)
    ensures |RowQuads(g, x, y)| == y
    ensures forall j :: 0 <= j < y ==> RowQuads(g, x, y)[j] == Quad(g, x, j)
  {
    if y > 0 {
      RowQuadsLayout(g, x, y - 1);
    }
  }

  lemma {:induction false} QuadsLength(g: Labyrinth.Grid, x: nat)
    requires Drawable(g) && x <= |g|
    ensures |Quads(g, x)| == x * Width(g)
  {
    if x > 0 {
      QuadsLength(g, x - 1);
      RowQuadsLayout(g, x - 1, Width(g));
      assert x * Width(g) == (x - 1) * Width(g) + Width(g);
    }
  }

  /** Rows come in order and cells in order within a row: cell `(i, j)` follows the first `i` rows. */
  lemma {:induction false} QuadAt(g: Labyrinth.Grid, x: nat, i: nat, j: nat)
    requires Drawable(g) && x <= |g| && i < x && j < Width(g)
    ensures |Quads(g, i)| + j < |Quads(g, x)| && Quads(g, x)[|Quads(g, i)| + j] == Quad(g, i, j)
  {
    var prev, row := Quads(g, x - 1), RowQuads(g, x - 1, Width(g));
    RowQuadsLayout(g, x - 1, Width(g));
    assert Quads(g, x) == prev + row;
    if i < x - 1 {
      QuadAt(g, x - 1, i, j);
      assert Quads(g, x)[|Quads(g, i)| + j] == prev[|Quads(g, i)| + j];
    } else {
      assert Quads(g, x)[|Quads(g, i)| + j] == row[j];
    }
  }

  /** The shapes of a game's scene are its cells row by row: cell `(i, j)` is shape `i * width + j`. */
  lemma SceneCell(game: Game, i: nat, j: nat)
    requires Drawable(game.field) && i < |game.field| && j < Width(game.field)
    ensures i * Width(game.field) + j < |SceneOf(Some(game)).shapes|
    ensures SceneOf(Some(game)).shapes[i * Width(game.field) + j] == Quad(game.field, i, j)
  {
    assert SceneOf(Some(game)).shapes == Quads(game.field, |game.field|);
    QuadsLength(game.field, i);
    QuadAt(game.field, |game.field|, i, j);
  }

  class PlayScreen {
    var state: ProgramState

    /** `PlayScreen::new`. */
    constructor (state: ProgramState)
      ensures this.state == state
    {
      this.state := state;
    }

    /** `scene`: pushes the light, then a quad for every cell, rows outermost. */
    method Scene() returns (world: World)
      requires state.game.Some? ==> Drawable(state.game.value.field)
      ensures world == SceneOf(state.game)
    {
      var shapes: seq<Shape> := [];
      var light: seq<Coord3D> := [];
      if state.game.Some? {
        var game := state.game.value;
        light := light + [Coord3D(WrapI32(game.player.x), WrapI32(game.player.y), 1)];
        var w := Width(game.field);
        var h := |game.field|;
        for x := 0 to h
          invariant shapes == Quads(game.field, x)
        {
          for y := 0 to w
            invariant shapes == Quads(game.field, x) + RowQuads(game.field, x, y)
          {
            var r, z;
            if game.field[x][y] {
              r, z := WallColor, 3;
            } else {
              r, z := OpenColor, 4;
            }
            var left, right := Scale(y, 640, w), Scale(y + 1, 640, w);
            var bottom, top := Scale(x, 480, h), Scale(x + 1, 480, h);
            shapes := shapes + [Shape([Vertex(Coord3D(left, top, z), r), Vertex(Coord3D(right, top, z), r),
                                       Vertex(Coord3D(left, bottom, z), r), Vertex(Coord3D(right, bottom, z), r)],
                                      TriangleStrip)];
          }
        }
      }
      world := World(shapes, light);
    }

    /**
     * `tick`. `Menu` hands the current state to a new menu screen and starts
     * over from `ProgramState::new`. Any other input ticks the game, if there
     * is one; a game that is then finished is dropped, and the state, without
     * it, goes to a new menu screen while this screen starts over. Otherwise
     * the screen stays.
     */
    method Tick(input: Option<Input>, step: (Game, Option<Input>) -> Game, isFinished: Game -> bool)
      returns (next: Option<MenuScreen>)
      modifies this, state
      ensures input == Some(Menu) ==>
        next.Some? && next.value.state == old(state) && unchanged(old(state)) && fresh(state) && state.Initial()
      ensures input != Some(Menu) && old(state.game).Some? && isFinished(step(old(state.game).value, input)) ==>
        next.Some? && next.value.state == old(state) && old(state).game == None &&
        old(state).score == old(state.score) && old(state).width == old(state.width) &&
        old(state).height == old(state.height) && old(state).seed == old(state.seed) &&
        fresh(state) && state.Initial()
      ensures input != Some(Menu) && old(state.game).Some? && !isFinished(step(old(state.game).value, input)) ==>
        next == None && state == old(state) && state.game == Some(step(old(state.game).value, input)) &&
        state.score == old(state.score) && state.width == old(state.width) &&
        state.height == old(state.height) && state.seed == old(state.seed)
      ensures input != Some(Menu) && old(state.game).None? ==> next == None && state == old(state) && unchanged(state)
    {
      if input == Some(Menu) {
        var current := state;
        state := new ProgramState();
        var menu := new MenuScreen(current);
        next := Some(menu);
      } else {
        var finished := false;
        if state.game.Some? {
          state.game := Some(step(state.game.value, input));
          finished := isFinished(state.game.value);
        }
        if finished {
          state.game := None;
          var current := state;
          state := new ProgramState();
          var menu := new MenuScreen(current);
          next := Some(menu);
        } else {
          next := None;
        }
      }
    }
  }
}
