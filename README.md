# rusty-door, modelled in Dafny

rusty-door is a small labyrinth game written in Rust. This project models its
core and proves properties of that model:

- **Labyrinth** (`src/labyrinth.rs`). A grid of wall/open cells. It is filled by
  a depth-first search that starts at `(1, 1)`. Each cell the search pops is
  tested at that moment and opened unless it is *essential*. A cell is
  essential when the 3×3 block around it has an empty cell in both its left
  and right columns, or in both its top and bottom rows. Diagonal neighbours
  count, and so do positions off the grid, which read as empty. Walls the
  search never reaches stay walls.
  - The model proves what the search leaves behind:
    - The cells it opens start at `(1, 1)` and form a region connected through
      shared sides, and only those cells change.
    - Each opened cell was inessential on the grid as it was just before
      that cell was opened.
    - Each popped cell left as a wall is essential in the final grid.
    - The search visits every in-grid side neighbour of an opened cell (a
      cell sharing a side with it; diagonal neighbours need not be visited).
    - It opens nothing at all exactly when the start is essential. For a
      fresh grid, that means exactly when the grid is two cells wide or two
      cells high.
  - The two text renderings are modelled as well. The `Debug` output reads back
    as the grid it printed. `Display` does not print what `Debug` prints (see
    Findings).
- **Directions** (`src/direction.rs`). The `LeftRight` and `UpDown` enums, their
  sign classifiers, and the 45-degree "rotations". `UpDown::from_int` maps
  negative numbers to `Up`, although `Up = 1`, and the model keeps that mapping.
- **Geometry** (`src/geometry.rs`). Integer coordinates projected onto and lifted
  from the axis planes, the in-plane rotation, and the tessellation of a shape
  into triangles, either consecutive triples (`TriangleList`) or a sliding
  window (`TriangleStrip`). A `TriangleList` whose length is not a multiple of
  three panics on its short last chunk, where the closure indexes `x[1]` or
  `x[2]`. So `Geometry.Chunks` and `Geometry.ToPolygons` require a multiple of
  three.
- **Rendering** (`src/render.rs`). A `Canvas` of pixels and depths. `render` casts
  one ray per pixel and keeps, among the triangles the ray hits, the one with
  the largest hit parameter `t`. Ties go to the first such triangle. Despite the
  name `closest_polygon`, this is the farthest hit, and the model keeps that
  behaviour.
- **Screens and program state** (`src/play.rs`, `src/menu.rs`, `src/state.rs`).
  - The play screen turns the labyrinth into one coloured quad per cell, laid
    out on a 640×480 screen, plus one light at the player.
  - Its `tick` either hands the state to the menu or ticks the game.
  - The menu's `tick` starts a new game on `Accept`.

Mutable objects are Dafny classes whose methods state what their new state
satisfies (for `fill_labyrinth` that is the properties above, not which maze
the search order produces):
`Labyrinth`, `Canvas`, `ProgramState`, `MenuScreen` and `PlayScreen`. Rust's
`mem::replace(&mut self.state, ProgramState::new())` becomes handing the old
state object to the new menu screen and allocating a fresh one. Loops over
grids and polygon lists are `while` loops whose invariants tie them to
specification functions (`Around`, `Fold`, `Farthest`, `Quads`, `DebugText`,
`DisplayText`).

## Model

| member | source | states |
|---|---|---|
| MachineInts.WrapI32 | src/play.rs:29 | `x as i32` is the identity on the i32 range and otherwise differs from `x` by a multiple of 2^32 |
| Directions.LeftRightFromInt | src/direction.rs:9-17 | the discriminant of the result is the sign of the argument |
| Directions.UpDownFromInt | src/direction.rs:28-36 | the discriminant of the result is minus the sign of the argument: negatives give `Up` (= 1) |
| Directions.LeftRightFromIntInverse | src/direction.rs:1-17 | `LeftRight::from_int(d as i8) == d` for every `d` |
| Directions.UpDownFromIntMirrors | src/direction.rs:20-36 | `UpDown::from_int(d as i8)` is `d` with `Up` and `Down` swapped, so it never gives `Up` or `Down` back |
| Directions.RotBy | src/direction.rs:44-50 | the horizontal component of the result has the sign of `a * re - b * im`, the vertical one minus the sign of `a * im - b * re` |
| Directions.RotFitsForUnitMultipliers | src/direction.rs:44-50 | for multipliers in {-1, 0, 1}, none of the six i8 operations of `rot_by` overflows, and both sums lie in [-2, 2] |
| Directions.RotByFixesCentre | src/direction.rs:44-50 | `Direction(Middle, Middle)` is fixed by `rot_by` for every `re`, `im`, with no overflow |
| Directions.RotCw | src/direction.rs:52-54 | both components of `rot_cw(a, b)` take the sign of `a + b` |
| Directions.RotCtrCw | src/direction.rs:56-58 | the horizontal component of `rot_ctr_cw(a, b)` takes the sign of `a - b`, the vertical one the opposite sign |
| Directions.RotationsAsWrittenAreNotRotations | src/direction.rs:44-58 | `rot_cw` fixes up-right and sends up-left to the centre; `rot_ctr_cw` fixes down-right |
| Directions.UpDownFromSign | src/direction.rs:20-25 | corrected classifier: the discriminant of the result is the sign of the argument |
| Directions.CorrectedRotationsRotate | src/direction.rs:44-58 | corrected: clockwise and counter-clockwise steps undo each other, never send a compass direction to the centre, and two steps make a quarter turn |
| Directions.CorrectedRotationHasPeriodEight | src/direction.rs:44-58 | corrected: four quarter turns, and eight counter-clockwise steps, give back every direction |
| Geometry.Coord2D.Rotate | src/geometry.rs:30-33 | with truncated cosine and sine `(1, 0)` rotation is the identity, `(-1, 0)` negates both components, and `(0, 0)` gives the origin |
| Geometry.Coord2D.ToSpace | src/geometry.rs:35-41 | the lifted point projects back onto the plane as the original 2D point, and its component on the plane's axis is `val` |
| Geometry.Coord3D.Rotate | src/geometry.rs:73-75 | the component on the plane's axis is kept, and the projection onto the plane is the 2D rotation of the projection |
| Geometry.IndexReadsComponent | src/geometry.rs:53-62 | `c[Axis(X)]`, `c[Axis(Y)]` and `c[Axis(Z)]` are `c.0`, `c.1` and `c.2` |
| Geometry.IndexDetermines | src/geometry.rs:53-62 | two coordinates are equal iff indexing them by every axis gives the same values, so the three axes read three distinct components |
| Geometry.AtPlaneToSpaceInverse | src/geometry.rs:35-71 | `to_space` undoes `at_plane` when given the dropped component back, and `at_plane` undoes `to_space` |
| Geometry.AtPlaneKeepsOrder | src/geometry.rs:65-71 | `at_plane` keeps the other two components in X, Y, Z order |
| Geometry.Chunks | src/geometry.rs:99-100 | a list of `3n` vertices gives `n` triangles, and triangle `i` is vertices `3i`, `3i+1`, `3i+2` |
| Geometry.Windows | src/geometry.rs:101-102 | `n >= 3` vertices give `n - 2` triangles (none for fewer), and triangle `i` is vertices `i`, `i+1`, `i+2` |
| Geometry.ToPolygons | src/geometry.rs:96-105 | a triangle list of `3n` vertices gives `n` triangles; a strip of `n >= 3` vertices gives `n - 2`, and a shorter strip gives none |
| Geometry.ChunksKeepVertices | src/geometry.rs:99-100 | concatenating the triangles of a list gives back its vertices |
| Geometry.WindowsKeepVertices | src/geometry.rs:101-102 | a strip of at least three vertices is re-assembled from its triangles: the first triangle's first two vertices, then each triangle's last |
| Geometry.LastVerticesOfWindows | src/geometry.rs:101-102 | the last vertices of the strip's triangles are the vertices from the third on |
| Geometry.TessellationVerticesFromShape | src/geometry.rs:96-105 | every vertex of every triangle of a shape is one of the shape's vertices |
| Labyrinth.FoldStep | src/labyrinth.rs:79-93 | threading the closure's state over one more call applies the closure once more |
| Labyrinth.FilteredIsFold | src/labyrinth.rs:86-92 | the nested loop of `filter_around` is the fold of the closure over the selected calls, in loop order |
| Labyrinth.BlockCallByRank | src/labyrinth.rs:84-88 | loop position `(h, v)` visits the neighbour with rank `3h + v`, and the rank determines the position |
| Labyrinth.ScanMembers | src/labyrinth.rs:86-92 | a call is made before loop position `(h, v)` iff its cell passes the `!req ^ value` test and its rank is below `3h + v` |
| Labyrinth.ScanOrdered | src/labyrinth.rs:86-92 | the calls come in strictly increasing loop order, at most `3h + v` of them |
| Labyrinth.RankBelowNine | src/labyrinth.rs:84-86 | each of the nine directions has a rank in 0..9 |
| Labyrinth.AroundMembers | src/labyrinth.rs:79-93 | `f` is called for the neighbour in direction `d` iff that cell passes the test, and every call is at the neighbour its direction names |
| Labyrinth.AroundOrdered | src/labyrinth.rs:79-93 | each neighbour is called at most once, in loop order, so at most nine calls |
| Labyrinth.FoldGoodNeighbors | src/labyrinth.rs:58-61 | the `good_neighbors` closure appends the points of the calls on the row or column of the centre |
| Labyrinth.FoldPushDirection | src/labyrinth.rs:97-98 | the closure of `empty_neighbors` collects the directions of the calls, in order |
| Labyrinth.OrthogonalFrom | src/labyrinth.rs:58-61 | every point `good_neighbors` pushes comes from a call with `v == Middle` or `h == Middle` |
| Labyrinth.OrthogonalHas | src/labyrinth.rs:58-61 | `good_neighbors` pushes the point of every call with `v == Middle` or `h == Middle` |
| Labyrinth.DirectionsOfAt | src/labyrinth.rs:97-98 | over calls made at `p`, a direction is collected iff the call in that direction was made |
| Labyrinth.DirectionsOfLength | src/labyrinth.rs:97-98 | one direction is collected per call |
| Labyrinth.EmptyDirectionAt | src/labyrinth.rs:95-100 | a direction is collected iff the cell there is open or off the grid |
| Labyrinth.EmptyDirections | src/labyrinth.rs:95-100 | the collected directions are exactly those of the open or off-grid neighbours, at most nine |
| Labyrinth.PushedIsNeighbour | src/labyrinth.rs:58-64 | every cell pushed for a visited `f` is an unvisited in-grid cell sharing a side with `f` |
| Labyrinth.NeighbourIsPushed | src/labyrinth.rs:58-64 | every unvisited in-grid cell sharing a side with `f` is pushed |
| Labyrinth.PushedNeighbours | src/labyrinth.rs:58-64 | the pushed cells are exactly the unvisited in-grid cells sharing a side with `f` |
| Labyrinth.MarkRow | src/labyrinth.rs:50 | marking an unvisited cell of a row lowers the row's unvisited count by one; marking a visited one changes nothing |
| Labyrinth.MarkGrid | src/labyrinth.rs:50 | the same for the whole `visited` grid: the unvisited count drops by one exactly when the cell was unvisited |
| Labyrinth.StaleFresh | src/labyrinth.rs:63-64 | pushing only unvisited cells adds no stale stack entries |
| Labyrinth.Mark | src/labyrinth.rs:50 | `visited[x][y] = true` keeps the shape and sets exactly that cell |
| Labyrinth.PopMarks | src/labyrinth.rs:48-50 | the popped cell is in the grid, and after marking it `visited` still marks exactly the popped cells |
| Labyrinth.PopClosed | src/labyrinth.rs:48-50 | popping keeps every side neighbour of a carved cell either popped or on the stack |
| Labyrinth.PopProvenance | src/labyrinth.rs:47-48 | the first pop is the start on an otherwise empty stack; every later pop shares a side with a carved cell |
| Labyrinth.PopDecreases | src/labyrinth.rs:48-50 | each pop lowers the unvisited count, or keeps it and lowers the number of stale entries: the search terminates |
| Labyrinth.PopKeeps | src/labyrinth.rs:48-54 | a pop keeps the search invariant, with the facts above about the popped cell |
| Labyrinth.CarveCells | src/labyrinth.rs:56 | `cells[x][y] = false` keeps "the grid is the original with exactly the carved cells opened" |
| Labyrinth.CarveConnected | src/labyrinth.rs:56 | carving the start first, and later only a cell sharing a side with a carved one, keeps the carved cells connected |
| Labyrinth.CarveProvenance | src/labyrinth.rs:56-64 | after a carve every stacked cell shares a side with a carved cell |
| Labyrinth.CarveClosed | src/labyrinth.rs:56-64 | after a carve every side neighbour of a carved cell is popped or stacked |
| Labyrinth.CarveGrids | src/labyrinth.rs:56-64 | a carve keeps the grids' shapes and indices in range, and adds no stale entries |
| Labyrinth.CarveShape | src/labyrinth.rs:56-64 | a carve keeps the carved region connected through shared sides, and every side neighbour of a carved cell popped or stacked |
| Labyrinth.Opened | src/labyrinth.rs:56 | the grid after carving a list of cells is the original with exactly those cells opened |
| Labyrinth.CarvedFromIsOpened | src/labyrinth.rs:56 | a grid that is the original with exactly the carved cells opened is that `Opened` grid |
| Labyrinth.EssentialMonotone | src/labyrinth.rs:68-77 | opening cells never makes an essential cell inessential |
| Labyrinth.PopKeptEssential | src/labyrinth.rs:52-54 | a popped cell that is essential is skipped, and every popped, uncarved cell stays essential |
| Labyrinth.CarveInessential | src/labyrinth.rs:52-56 | carving a cell that is not essential on the grid carved so far keeps "every carved cell was inessential when carved" |
| Labyrinth.CarveKeptEssential | src/labyrinth.rs:56 | carving a cell keeps every popped, uncarved cell essential |
| Labyrinth.CarveStep | src/labyrinth.rs:52-64 | carving an inessential popped cell and stacking its unvisited side neighbours keeps every invariant of the search loop |
| Labyrinth.CarvedNone | src/labyrinth.rs:44-66 | with nothing carved the cells are the original ones |
| Labyrinth.SearchStart | src/labyrinth.rs:45-47 | an all-unvisited `visited` grid and the stack `[(1, 1)]` satisfy the search invariant |
| Labyrinth.SearchDone | src/labyrinth.rs:48 | once the stack is empty the invariant gives the final guarantee of `fill_labyrinth` |
| Labyrinth.Walls | src/labyrinth.rs:39 | `vec![vec![true; width]; height]` is `height` rows of `width` walls |
| Labyrinth.StartEssentialWhenNarrow | src/labyrinth.rs:38-42 | on a fresh grid the start `(1, 1)` is essential iff the grid is 2 wide or 2 high, so only then is nothing carved |
| Labyrinth.Glyph | src/labyrinth.rs:15 | a cell prints as `'#'` exactly when it is a wall, and never as a newline |
| Labyrinth.Line | src/labyrinth.rs:14-15 | a printed row has one glyph per cell |
| Labyrinth.ParseLineOfLine | src/labyrinth.rs:14-15 | a printed row reads back as the row and holds no newline |
| Labyrinth.RowsOfLines | src/labyrinth.rs:13-17 | the printed rows, last row first, read back as the grid; one line per row, none holding a newline |
| Labyrinth.SplitPrefix | src/labyrinth.rs:18 | splitting text that starts with a newline-free line extends the first piece by that line |
| Labyrinth.SplitJoin | src/labyrinth.rs:18 | splitting `join("\n")` of newline-free lines at newlines gives the lines back |
| Labyrinth.ParseDebugText | src/labyrinth.rs:10-20 | the `Debug` output of a non-empty grid reads back as that grid |
| Labyrinth.JoinShape | src/labyrinth.rs:18 | `join` of `k` separator-free strings has their total length plus `k - 1`, and `k - 1` separators |
| Labyrinth.SumOfLines | src/labyrinth.rs:13-17 | the printed rows of an `h` by `w` grid hold `h * w` glyphs |
| Labyrinth.DebugShape | src/labyrinth.rs:10-20 | `Debug` writes `h * w` glyphs and `h - 1` newlines |
| Labyrinth.JoinAppend | src/labyrinth.rs:18 | joining one more line appends the separator and the line |
| Labyrinth.LinesConcat | src/labyrinth.rs:13 | the rows are printed in reverse order: the printed rows of `x + y` are those of `y`, then those of `x` |
| Labyrinth.LinesFrom | src/labyrinth.rs:13-17 | printing rows from `i` up is printing rows from `i + 1` up, then row `i` |
| Labyrinth.DisplayCorrectedRowsJoin | src/labyrinth.rs:24-33 | with the newline after every row but row 0, the output from row `i` is the joined rows, plus a newline unless `i` is 0 |
| Labyrinth.DisplayCorrectedIsDebug | src/labyrinth.rs:22-35 | corrected, `Display` writes exactly what `Debug` writes |
| Labyrinth.DisplayRowsWide | src/labyrinth.rs:24-33 | as written, when rows are longer than the grid is high, a newline follows every row |
| Labyrinth.DisplayWideEndsInNewline | src/labyrinth.rs:29-31 | as written, on a grid wider than high `Display` is `Debug` plus a trailing newline |
| Labyrinth.DisplaySquareMisplacesNewline | src/labyrinth.rs:29-31 | as written, on the 2×2 grid of walls `Display` gives `"####\n"` where `Debug` gives `"##\n##"` |
| Labyrinth.Labyrinth.Get | src/labyrinth.rs:83-89 | `c.get(vidx).unwrap_or(&e).get(hidx).unwrap_or(&def)` is the cell when it is in the grid and `def` otherwise |
| Labyrinth.Labyrinth.constructor | src/labyrinth.rs:38-42 | `new(w, h)` is a `h` by `w` grid of walls with the carved cells opened, connected from `(1, 1)`; each carved cell was inessential when carved, and each visited wall is essential; it carves nothing iff `w == 2` or `h == 2` |
| Labyrinth.Labyrinth.FillLabyrinth | src/labyrinth.rs:44-66 | afterwards the grid keeps its shape and only carved cells changed; the carved cells are connected from the start; each carved cell was inessential on the grid just before it was carved; each visited cell left uncarved is essential in the final grid; every in-grid side neighbour of a carved cell was visited; nothing is carved iff the start is essential |
| Labyrinth.Labyrinth.DebugFmt | src/labyrinth.rs:10-20 | the loop writes the rows from last to first, as glyphs, joined by newlines (the text `ParseDebugText` reads back) |
| Labyrinth.Labyrinth.DisplayFmt | src/labyrinth.rs:22-35 | the loop writes the rows from last to first, each followed by a newline unless its index equals the row length minus one, whose consequences `DisplayWideEndsInNewline` (grids wider than high) and `DisplaySquareMisplacesNewline` (one 2×2 grid) exhibit |
| Labyrinth.Labyrinth.FilterAround | src/labyrinth.rs:79-93 | the closure's state ends as the fold of `f` over the neighbours that pass the `!req ^ value` test, in loop order, off-grid cells reading `def` |
| Labyrinth.Labyrinth.EmptyNeighbors | src/labyrinth.rs:95-100 | a direction is in the result iff the cell there is open or off the grid; at most nine directions |
| Labyrinth.Labyrinth.EssentialCell | src/labyrinth.rs:68-77 | the result is whether the 3×3 block around `p` has an empty cell in both its left and right columns, or in both its top and bottom rows; diagonal neighbours count and off-grid positions read as empty |
| Render.FarthestNoneIffAllMiss | src/render.rs:58-71 | `closest_polygon` gives `None` iff the ray misses every polygon |
| Render.FarthestIsMaximal | src/render.rs:62-69 | the selected hit has the largest `t` of all hits |
| Render.FarthestIsFirstMaximalHit | src/render.rs:58-71 | the selection is a listed polygon with the point and `t` that `raytrace` reported for it, and every earlier hit has a strictly smaller `t` |
| Render.AllPolygonsAppend | src/render.rs:90 | the `flat_map` of a concatenation of shape lists is the concatenation of their `flat_map`s |
| Render.AllPolygonsOne | src/render.rs:90 | the `flat_map` of one shape is its tessellation |
| Render.Canvas.constructor | src/render.rs:13-20 | `new(w, h)` has `h` rows of `w` black pixels at depth 0 |
| Render.Canvas.ClosestPolygon | src/render.rs:58-71 | the loop returns the selection `Farthest` describes (the first hit with the largest `t`, or `None`) |
| Render.Canvas.Render | src/render.rs:88-105 | each pixel `[b][a]` ends painted with the colour of the selected hit for its ray, and its depth is the hit's `t`; on a miss both are unchanged; the size is kept |
| Render.Canvas.PaintColumn | src/render.rs:92-103 | one pass of the inner loop paints column `a` as above and leaves every other pixel and depth unchanged |
| State.NewScore | src/state.rs:15-19 | `Score::new` has no entries |
| State.ProgramState.constructor | src/state.rs:32-40 | no game, no scores, width 70, height 30, no seed |
| State.ProgramState.NewGame | src/state.rs:42-45 | the game becomes `Game::new(width, height, seed or 0)` and nothing else changes |
| Menu.MenuScreen.constructor | src/menu.rs:28-32 | the menu holds the given state |
| Menu.MenuScreen.Tick | src/menu.rs:9-23 | `Accept` starts a new game with the configured size and seed, and changes nothing else; every other input, and no input, leaves the state unchanged; the result is always `None` |
| Play.Scale | src/play.rs:45-48 | `a * n / d` lies in `0..=n`, is 0 at edge 0 and `n` at edge `d` |
| Play.ScaleMonotone | src/play.rs:45-48 | scaled edge coordinates never decrease |
| Play.DrawableFitsI32 | src/play.rs:32-48 | on a drawable field no product in `scene` leaves i32, and one more column or row would overflow |
| Play.QuadShape | src/play.rs:41-65 | each quad is a four-vertex strip on the 640×480 screen, wall-coloured at depth 3 iff the cell is a wall and open-coloured at depth 4 otherwise |
| Play.QuadTriangles | src/play.rs:41-65 | each quad tessellates into the two triangles `(v0, v1, v2)` and `(v1, v2, v3)` |
| Play.QuadsTile | src/play.rs:45-48 | each quad has non-negative width and height, and neighbouring quads share their edges |
| Play.RowQuadsLayout | src/play.rs:36-66 | after `y` steps of the inner loop the row holds the quads of cells `(x, 0)` to `(x, y - 1)` |
| Play.QuadsLength | src/play.rs:35-67 | after `x` rows there are `x * width` quads |
| Play.QuadAt | src/play.rs:35-67 | the quad of cell `(i, j)` comes after those of the first `i` rows, at offset `j` |
| Play.Light | src/play.rs:29-30 | the light sits at height 1 and at the player's coordinates whenever they fit in i32 |
| Play.SceneOf | src/play.rs:24-74 | no game gives an empty world; a game gives one light, at the player, and one shape per cell |
| Play.SceneCell | src/play.rs:35-67 | shape `i * width + j` of the scene is the quad of cell `(i, j)` |
| Play.PlayScreen.constructor | src/play.rs:16-20 | the screen holds the given state |
| Play.PlayScreen.Scene | src/play.rs:24-74 | the loops build exactly the world `SceneOf` describes |
| Play.PlayScreen.Tick | src/play.rs:78-100 | `Menu` hands the untouched state to a new menu and starts a fresh state; otherwise a game is ticked; if it is then finished, it is dropped and the rest of the state goes to a new menu while the screen starts over; if it is not finished the screen stays with the ticked game; without a game nothing changes |

## Left out

- `raytrace` and `pixel_color` (render.rs:26-56, 73-86) compute with `f64` vectors. They are parameters `trace` and `color` of `Render.Canvas.Render`, and `trace` also of `Render.Canvas.ClosestPolygon`.
- The ray direction formula of `render` (render.rs:93-96) is a parameter `ray` of `Render.Canvas.Render`.
- Floating-point values are `real`s. The starting `-f64::INFINITY` of `closest_polygon` is `Bound.NegInf`. NaN is not modelled.
- `Canvas::pixels` (render.rs:22-24) is a plain getter of a field the model exposes directly.
- `game.rs` is not part of this model. A game is reduced to its field and the player's position. `Game::new`, `Game::tick` and `Game::is_finished` are parameters (`build`, `step`, `isFinished`).
- `labyrinth::Field` and its `width()`, `height()` and `Index<Point>` are not part of this model. The field is a grid indexed `[x][y]`, its height is the number of rows and its width the length of a row.
- `Vector3` and `into_inner`, which `scene` uses, are not part of this model. Integer vectors are `Coord3D`s, the light included, since `World.lighting` holds `Coord3D`s.
- `main.rs`, `scene.rs` and the `Screen`, `Tickable` and input modules are not part of this model.
  - One `Input` datatype stands for both `tickable::Input` and `screen::UserInput`.
  - `Option<Box<Screen>>` is `Option<MenuScreen>`, the only screen either `tick` returns.
- The `println!` of the field that `MenuScreen::tick` does on `Menu` (menu.rs:16-19) is output. The model states only that the state is unchanged.
- `fmt::Formatter` write errors are not modelled. `DebugFmt` and `DisplayFmt` return the text written.
- Play.PlayScreen.Scene: requires the field to have at most 3355443 columns and 4473924 rows. Beyond that the i32 products in `scene` overflow, which panics in debug builds. The release-build wrap-around of vertex coordinates is not modelled.
- Labyrinth.Labyrinth.constructor: requires `width, height >= 2`. Smaller sizes panic in `fill_labyrinth` on `visited[1][1]` or `self.cells[0]`.
- Labyrinth.Labyrinth.FilterAround: positions are unbounded integers. The `usize`-to-`i32` round trip of `y as i32 + h as i32` is not modelled for coordinates at or beyond 2^31; an off-grid index is `-1` or the grid size instead of a wrapped `usize`. It requires `p.x` on the grid, as `c[x]` does.
- Directions.RotBy and Geometry.Coord2D.Rotate: require that no i8 or i32 operation overflows, which Rust checks in debug builds. The wrap-around of release builds is not modelled.
- Geometry.Coord2D.Rotate: takes the truncated cosine and sine of an `Angle` directly, as integers in {-1, 0, 1}. The `f64` trigonometry of `Angle` is not modelled.
- Geometry.ToPolygons: requires a `TriangleList` to have a multiple of three vertices, since the source panics on a short last chunk.
- `ScoreEntry.player` is a Dafny string, without any Unicode or encoding semantics.

## Findings

| source | as written | input that shows it | evidently intended | confidence | as-written member | corrected member |
|---|---|---|---|---|---|---|
| src/labyrinth.rs:29 | `Display` writes a newline after row `i` unless `i == len - 1`, with `len` the row length | the 2×2 grid of walls prints `"####\n"` instead of `"##\n##"` | a newline between rows, that is after every row but row 0, so that `Display` matches `Debug` | not executed | Labyrinth.DisplaySquareMisplacesNewline | Labyrinth.DisplayCorrectedIsDebug |
| src/direction.rs:28-58 | `rot_by` computes `a * im - b * re` for the vertical part, and `UpDown::from_int` maps negatives to `Up` | `rot_cw` of up-right is up-right, and `rot_cw` of up-left is the centre | complex multiplication `a * im + b * re` classified by sign with `Up` positive: a 45-degree turn | not executed | Directions.RotationsAsWrittenAreNotRotations | Directions.CorrectedRotationsRotate |
