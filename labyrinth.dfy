/**
 * The maze of labyrinth.rs. A labyrinth is a grid of cells, `true` for a wall;
 * `cells[x][y]` is row `x`, column `y`. A depth-first search from `(1, 1)`
 * carves every popped cell that would not join open cells on opposite sides.
 */
module Labyrinth {
  import opened Directions

  /**
   * `Point { x, y }`. The fields are `usize` in the source; here they are
   * unbounded integers, and every point the search builds is proved to lie in
   * the grid.
   */
  datatype Point = Point(x: int, y: int)

  type Grid = seq<seq<bool>>

  /** `height` rows of `width` cells each. */
  ghost predicate Rect(g: Grid, height: int, width: int) {
    |g| == height && forall i :: 0 <= i < |g| ==> |g[i]| == width
  }

  predicate InGrid(g: Grid, x: int, y: int) {
    0 <= x < |g| && 0 <= y < |g[x]|
  }

  /**
   * `*c.get(vidx).unwrap_or(&e).get(hidx).unwrap_or(&def)`: the cell, or `def`
   * off the grid (`e` is a row of `def`s).
   */
  function Lookup(c: Grid, def: bool, x: int, y: int): bool {
    if InGrid(c, x, y) then c[x][y] else def
  }

  /** The arguments of one call of `f` by `filter_around`. */
  datatype Call = Call(vidx: int, hidx: int, v: UpDown, h: LeftRight)

  /** The call for the neighbour of `p` in direction `d` (the centre for `Centre`). */
  function CallAt(p: Point, d: Direction): Call {
    Call(p.x + d.vdir.Disc(), p.y + d.hdir.Disc(), d.vdir, d.hdir)
  }

  const LR: seq<LeftRight> := [Left, LeftRight.Middle, Right]
  const UD: seq<UpDown> := [Up, UpDown.Middle, Down]

  /** The position visited when the outer loop is at `LR[hi]` and the inner one at `UD[vi]`. */
  function BlockCall(p: Point, hi: int, vi: int): Call
    requires 0 <= hi < 3 && 0 <= vi < 3
  {
    CallAt(p, Direction(LR[hi], UD[vi]))
  }

  /** `!req ^ value`: whether `filter_around` calls `f` for this position. */
  predicate Selected(c: Grid, def: bool, req: bool, call: Call) {
    (!req) != Lookup(c, def, call.vidx, call.hidx)
  }

  /**
   * The calls `filter_around` has made once the outer loop has finished `hi`
   * columns and the inner loop `vi` positions of the next one.
   */
  function Scan(c: Grid, def: bool, req: bool, p: Point, hi: int, vi: int): seq<Call>
    requires 0 <= hi <= 3 && 0 <= vi <= 3 && (hi < 3 || vi == 0)
    decreases hi, vi
  {
    if vi == 0 then (if hi == 0 then [] else Scan(c, def, req, p, hi - 1, 3))
    else
      var call := BlockCall(p, hi, vi - 1);
      Scan(c, def, req, p, hi, vi - 1) + (if Selected(c, def, req, call) then [call] else [])
  }

  /** The calls `filter_around(c, def, req, p, ...)` makes, in order. */
  function Around(c: Grid, def: bool, req: bool, p: Point): seq<Call> {
    Scan(c, def, req, p, 3, 0)
  }

  /** Threads the state `t` through `f` along `calls`, as the `FnMut` closure does. */
  function Fold<T>(f: (T, int, int, UpDown, LeftRight) -> T, t: T, calls: seq<Call>): T {
    if calls == [] then t
    else
      var last := calls[|calls| - 1];
      f(Fold(f, t, calls[..|calls| - 1]), last.vidx, last.hidx, last.v, last.h)
  }

  lemma FoldStep<T>(f: (T, int, int, UpDown, LeftRight) -> T, t: T, calls: seq<Call>, call: Call)
    ensures Fold(f, t, calls + [call]) == f(Fold(f, t, calls), call.vidx, call.hidx, call.v, call.h)
  {
    assert (calls + [call])[..|calls|] == calls;
  }

  /**
   * The state of `t` once the outer loop has finished `hi` columns and the
   * inner loop `vi` positions of the next one.
   */
  function Filtered<T>(f: (T, int, int, UpDown, LeftRight) -> T, t: T, c: Grid, def: bool, req: bool,
                       p: Point, hi: int, vi: int): T
    requires 0 <= hi <= 3 && 0 <= vi <= 3 && (hi < 3 || vi == 0)
    decreases hi, vi
  {
    if vi == 0 then (if hi == 0 then t else Filtered(f, t, c, def, req, p, hi - 1, 3))
    else
      var prev := Filtered(f, t, c, def, req, p, hi, vi - 1);
      var call := BlockCall(p, hi, vi - 1);
      if Selected(c, def, req, call) then f(prev, call.vidx, call.hidx, call.v, call.h) else prev
  }

  lemma {:induction false} FilteredIsFold<T>(f: (T, int, int, UpDown, LeftRight) -> T, t: T, c: Grid, def: bool,
                                             req: bool, p: Point, hi: int, vi: int)
    requires 0 <= hi <= 3 && 0 <= vi <= 3 && (hi < 3 || vi == 0)
    ensures Filtered(f, t, c, def, req, p, hi, vi) == Fold(f, t, Scan(c, def, req, p, hi, vi))
    decreases hi, vi
  {
    if vi == 0 {
      if hi > 0 {
        FilteredIsFold(f, t, c, def, req, p, hi - 1, 3);
      }
    } else {
      FilteredIsFold(f, t, c, def, req, p, hi, vi - 1);
      var prev := Scan(c, def, req, p, hi, vi - 1);
      var call := BlockCall(p, hi, vi - 1);
      if Selected(c, def, req, call) {
        FoldStep(f, t, prev, call);
      } else {
        assert prev + [] == prev;
      }
    }
  }

  /** Position of a call in the loop order: `h` outer over Left, Middle, Right; `v` inner over Up, Middle, Down. */
  function Rank(call: Call): int {
    3 * (match call.h case Left => 0 case Middle => 1 case Right => 2) +
    (match call.v case Up => 0 case Middle => 1 case Down => 2)
  }

  /** A position of the block is determined by its rank. */
  lemma BlockCallByRank(p: Point, hi: int, vi: int, call: Call)
    requires 0 <= hi < 3 && 0 <= vi < 3
    ensures Rank(BlockCall(p, hi, vi)) == 3 * hi + vi
    ensures call == CallAt(p, Direction(call.h, call.v)) && Rank(call) == 3 * hi + vi ==>
      call == BlockCall(p, hi, vi)
  {
  }

  /** `Scan` holds the selected positions of the block below the loop position, as `CallAt` gives them. */
  lemma {:induction false} ScanMembers(c: Grid, def: bool, req: bool, p: Point, hi: int, vi: int)
    requires 0 <= hi <= 3 && 0 <= vi <= 3 && (hi < 3 || vi == 0)
    ensures forall call :: call in Scan(c, def, req, p, hi, vi) <==>
      Selected(c, def, req, call) && call == CallAt(p, Direction(call.h, call.v)) && Rank(call) < 3 * hi + vi
    decreases hi, vi
  {
    if vi == 0 {
      if hi > 0 {
        ScanMembers(c, def, req, p, hi - 1, 3);
      }
    } else {
      ScanMembers(c, def, req, p, hi, vi - 1);
      var x := BlockCall(p, hi, vi - 1);
      forall call: Call ensures call == CallAt(p, Direction(call.h, call.v)) && Rank(call) == 3 * hi + vi - 1 ==> call == x {
        BlockCallByRank(p, hi, vi - 1, call);
      }
    }
  }

  /** `Scan` lists its positions in strictly increasing loop order, so each at most once. */
  lemma {:induction false} ScanOrdered(c: Grid, def: bool, req: bool, p: Point, hi: int, vi: int)
    requires 0 <= hi <= 3 && 0 <= vi <= 3 && (hi < 3 || vi == 0)
    ensures var s := Scan(c, def, req, p, hi, vi);
      (forall i, j :: 0 <= i < j < |s| ==> Rank(s[i]) < Rank(s[j])) && |s| <= 3 * hi + vi
    decreases hi, vi
  {
    if vi == 0 {
      if hi > 0 {
        ScanOrdered(c, def, req, p, hi - 1, 3);
      }
    } else {
      ScanOrdered(c, def, req, p, hi, vi - 1);
      ScanMembers(c, def, req, p, hi, vi - 1);
      var prev := Scan(c, def, req, p, hi, vi - 1);
      var x := BlockCall(p, hi, vi - 1);
      BlockCallByRank(p, hi, vi - 1, x);
      forall i | 0 <= i < |prev| ensures Rank(prev[i]) < Rank(x) {
        assert prev[i] in prev;
      }
    }
  }

  /** Every direction gives a distinct position of the block, which has rank below nine. */
  lemma RankBelowNine(call: Call)
    ensures 0 <= Rank(call) < 9
  {
  }

  /**
   * `filter_around` calls `f` exactly for the positions of the 3x3 block
   * (centre included) whose value, reading off-grid positions as `def`,
   * satisfies `!req ^ value`.
   */
  lemma AroundMembers(c: Grid, def: bool, req: bool, p: Point)
    ensures forall d :: CallAt(p, d) in Around(c, def, req, p) <==> Selected(c, def, req, CallAt(p, d))
    ensures forall call :: call in Around(c, def, req, p) ==> call == CallAt(p, Direction(call.h, call.v))
  {
    ScanMembers(c, def, req, p, 3, 0);
    forall d ensures Rank(CallAt(p, d)) < 9 {
      RankBelowNine(CallAt(p, d));
    }
  }

  /** ... each once, in loop order, so at most nine times. */
  lemma AroundOrdered(c: Grid, def: bool, req: bool, p: Point)
    ensures var s := Around(c, def, req, p);
      (forall i, j :: 0 <= i < j < |s| ==> Rank(s[i]) < Rank(s[j])) && |s| <= 9
  {
    ScanOrdered(c, def, req, p, 3, 0);
  }

  /** The `good_neighbors` closure of `fill_labyrinth`: pushes orthogonal positions. */
  function GoodNeighbors(m: seq<Point>, vidx: int, hidx: int, v: UpDown, h: LeftRight): seq<Point> {
    if v == UpDown.Middle || h == LeftRight.Middle then m + [Point(vidx, hidx)] else m
  }

  /** The closure of `empty_neighbors`: pushes the direction of the position. */
  function PushDirection(m: seq<Direction>, vidx: int, hidx: int, v: UpDown, h: LeftRight): seq<Direction> {
    m + [Direction(h, v)]
  }

  /** The positions in the same row or column as the centre, the centre included. */
  predicate OnAxis(call: Call) {
    call.v == UpDown.Middle || call.h == LeftRight.Middle
  }

  /** The points `good_neighbors` pushes for `calls`, in order. */
  function Orthogonal(calls: seq<Call>): seq<Point> {
    if calls == [] then []
    else
      var last := calls[|calls| - 1];
      Orthogonal(calls[..|calls| - 1]) +
      (if OnAxis(last) then [Point(last.vidx, last.hidx)] else [])
  }

  function DirectionsOf(calls: seq<Call>): seq<Direction> {
    if calls == [] then []
    else DirectionsOf(calls[..|calls| - 1]) + [Direction(calls[|calls| - 1].h, calls[|calls| - 1].v)]
  }

  lemma {:induction false} FoldGoodNeighbors(m: seq<Point>, calls: seq<Call>)
    ensures Fold(GoodNeighbors, m, calls) == m + Orthogonal(calls)
    decreases |calls|
  {
    if calls != [] {
      FoldGoodNeighbors(m, calls[..|calls| - 1]);
    }
  }

  lemma {:induction false} FoldPushDirection(calls: seq<Call>)
    ensures Fold(PushDirection, [], calls) == DirectionsOf(calls)
    decreases |calls|
  {
    if calls != [] {
      FoldPushDirection(calls[..|calls| - 1]);
    }
  }

  /** Every point `good_neighbors` pushes comes from an orthogonal call. */
  lemma {:induction false} OrthogonalFrom(calls: seq<Call>, q: Point)
    requires q in Orthogonal(calls)
    ensures exists call :: call in calls && OnAxis(call) && q == Point(call.vidx, call.hidx)
    decreases |calls|
  {
    var init := calls[..|calls| - 1];
    var last := calls[|calls| - 1];
    assert calls == init + [last];
    if q in Orthogonal(init) {
      OrthogonalFrom(init, q);
      var call :| call in init && OnAxis(call) && q == Point(call.vidx, call.hidx);
      assert call in calls;
    } else {
      assert last in calls;
    }
  }

  /** ... and `good_neighbors` pushes the point of every orthogonal call. */
  lemma {:induction false} OrthogonalHas(calls: seq<Call>, call: Call)
    requires call in calls && OnAxis(call)
    ensures Point(call.vidx, call.hidx) in Orthogonal(calls)
    decreases |calls|
  {
    var init := calls[..|calls| - 1];
    assert calls == init + [calls[|calls| - 1]];
    if call != calls[|calls| - 1] {
      OrthogonalHas(init, call);
    }
  }

  /** Over calls made at `p`, the pushed directions are those of the calls. */
  lemma {:induction false} DirectionsOfAt(calls: seq<Call>, p: Point, d: Direction)
    requires forall call :: call in calls ==> call == CallAt(p, Direction(call.h, call.v))
    ensures d in DirectionsOf(calls) <==> CallAt(p, d) in calls
    decreases |calls|
  {
    if calls != [] {
      var init := calls[..|calls| - 1];
      var last := calls[|calls| - 1];
      assert calls == init + [last];
      DirectionsOfAt(init, p, d);
    }
  }

  lemma {:induction false} DirectionsOfLength(calls: seq<Call>)
    ensures |DirectionsOf(calls)| == |calls|
    decreases |calls|
  {
    if calls != [] {
      DirectionsOfLength(calls[..|calls| - 1]);
    }
  }

  /** The cell of `cells` in direction `d` of `p` is empty; off the grid counts as empty. */
  predicate EmptyAt(cells: Grid, p: Point, d: Direction) {
    !Lookup(cells, false, p.x + d.vdir.Disc(), p.y + d.hdir.Disc())
  }

  /** A direction is collected by `empty_neighbors` exactly when its cell is empty. */
  lemma EmptyDirectionAt(cells: Grid, p: Point, d: Direction)
    ensures d in DirectionsOf(Around(cells, false, false, p)) <==> EmptyAt(cells, p, d)
  {
    AroundMembers(cells, false, false, p);
    DirectionsOfAt(Around(cells, false, false, p), p, d);
  }

  /** The directions `empty_neighbors` collects are those of the empty cells around `p`, at most nine. */
  lemma EmptyDirections(cells: Grid, p: Point)
    ensures forall d :: d in DirectionsOf(Around(cells, false, false, p)) <==> EmptyAt(cells, p, d)
    ensures |DirectionsOf(Around(cells, false, false, p))| <= 9
  {
    AroundOrdered(cells, false, false, p);
    DirectionsOfLength(Around(cells, false, false, p));
    forall d ensures d in DirectionsOf(Around(cells, false, false, p)) <==> EmptyAt(cells, p, d) {
      EmptyDirectionAt(cells, p, d);
    }
  }

  /** Some cell of the column on side `h` of `p` is empty. */
  predicate EmptyColumn(cells: Grid, p: Point, h: LeftRight) {
    EmptyAt(cells, p, Direction(h, Up)) || EmptyAt(cells, p, Direction(h, UpDown.Middle)) ||
    EmptyAt(cells, p, Direction(h, Down))
  }

  /** Some cell of the row on side `v` of `p` is empty. */
  predicate EmptyRow(cells: Grid, p: Point, v: UpDown) {
    EmptyAt(cells, p, Direction(Left, v)) || EmptyAt(cells, p, Direction(LeftRight.Middle, v)) ||
    EmptyAt(cells, p, Direction(Right, v))
  }

  /** Carving `p` would join open cells on its left and right, or above and below. */
  predicate Essential(cells: Grid, p: Point) {
    (EmptyColumn(cells, p, Left) && EmptyColumn(cells, p, Right)) ||
    (EmptyRow(cells, p, Up) && EmptyRow(cells, p, Down))
  }

  /** Two cells share a side. */
  predicate Adjacent(p: Point, q: Point) {
    (p.x == q.x && (p.y == q.y + 1 || q.y == p.y + 1)) ||
    (p.y == q.y && (p.x == q.x + 1 || q.x == p.x + 1))
  }

  /** The cell `good_neighbors` pushes for `f` over the grid of visited cells. */
  function Pushed(visited: Grid, f: Point): seq<Point> {
    Orthogonal(Around(visited, true, false, f))
  }

  /**
   * Over the visited grid with `def = true`, every pushed cell is in the grid,
   * unvisited and shares a side with `f`; the centre is never pushed because
   * `f` itself is visited.
   */
  lemma PushedIsNeighbour(visited: Grid, f: Point, q: Point)
    requires InGrid(visited, f.x, f.y) && visited[f.x][f.y]
    requires q in Pushed(visited, f)
    ensures InGrid(visited, q.x, q.y) && !visited[q.x][q.y] && Adjacent(f, q)
  {
    var calls := Around(visited, true, false, f);
    OrthogonalFrom(calls, q);
    var call :| call in calls && OnAxis(call) && q == Point(call.vidx, call.hidx);
    AroundMembers(visited, true, false, f);
    var d := Direction(call.h, call.v);
    assert call == CallAt(f, d);
    assert Selected(visited, true, false, call);
    assert InGrid(visited, q.x, q.y) && !visited[q.x][q.y];
    assert q != f;
  }

  /** ... and every unvisited cell sharing a side with `f` is pushed. */
  lemma NeighbourIsPushed(visited: Grid, f: Point, q: Point)
    requires Adjacent(f, q) && InGrid(visited, q.x, q.y) && !visited[q.x][q.y]
    ensures q in Pushed(visited, f)
  {
    var calls := Around(visited, true, false, f);
    var d :=
      if q.x == f.x then Direction(if q.y < f.y then Left else Right, UpDown.Middle)
      else Direction(LeftRight.Middle, if q.x > f.x then Up else Down);
    var call := CallAt(f, d);
    assert Point(call.vidx, call.hidx) == q;
    AroundMembers(visited, true, false, f);
    OrthogonalHas(calls, call);
  }

  /** `pushed` holds exactly the unvisited in-grid cells sharing a side with `f`. */
  ghost predicate PushesNeighbours(visited: Grid, f: Point, pushed: seq<Point>) {
    (forall q :: q in pushed ==> InGrid(visited, q.x, q.y) && !visited[q.x][q.y] && Adjacent(f, q)) &&
    (forall q :: Adjacent(f, q) && InGrid(visited, q.x, q.y) && !visited[q.x][q.y] ==> q in pushed)
  }

  /** What `good_neighbors` pushes for a visited `f`. */
  lemma PushedNeighbours(visited: Grid, f: Point)
    requires InGrid(visited, f.x, f.y) && visited[f.x][f.y]
    ensures PushesNeighbours(visited, f, Pushed(visited, f))
  {
    forall q | q in Pushed(visited, f) ensures InGrid(visited, q.x, q.y) && !visited[q.x][q.y] && Adjacent(f, q) {
      PushedIsNeighbour(visited, f, q);
    }
    forall q | Adjacent(f, q) && InGrid(visited, q.x, q.y) && !visited[q.x][q.y] ensures q in Pushed(visited, f) {
      NeighbourIsPushed(visited, f, q);
    }
  }

  /** Where the search starts: `Point{x : 1, y : 1}`. */
  const Start := Point(1, 1)

  /** The number of `false` (unvisited) entries of a row. */
  function CountRow(r: seq<bool>): nat {
    if r == [] then 0 else (if r[0] then 0 else 1) + CountRow(r[1..])
  }

  /** The number of unvisited cells of the grid. */
  function Unvisited(g: Grid): nat {
    if g == [] then 0 else CountRow(g[0]) + Unvisited(g[1..])
  }

  /** Marking a cell visited removes it from the unvisited count when it was unvisited. */
  lemma {:induction false} MarkRow(r: seq<bool>, y: int)
    requires 0 <= y < |r|
    ensures CountRow(r[y := true]) == CountRow(r) - (if r[y] then 0 else 1)
    decreases y
  {
    if y > 0 {
      assert r[y := true][1..] == r[1..][y - 1 := true];
      MarkRow(r[1..], y - 1);
    } else {
      assert r[y := true][1..] == r[1..];
    }
  }

  lemma {:induction false} MarkGrid(g: Grid, x: int, y: int)
    requires InGrid(g, x, y)
    ensures Unvisited(g[x := g[x][y := true]]) == Unvisited(g) - (if g[x][y] then 0 else 1)
    decreases x
  {
    if x > 0 {
      assert g[x := g[x][y := true]][1..] == g[1..][x - 1 := g[1..][x - 1][y := true]];
      MarkGrid(g[1..], x - 1, y);
    } else {
      assert g[x := g[x][y := true]][1..] == g[1..];
      MarkRow(g[0], y);
    }
  }

  /** Stack entries that point at visited cells; off-grid positions read as visited. */
  function Stale(s: seq<Point>, visited: Grid): nat {
    if s == [] then 0
    else Stale(s[..|s| - 1], visited) + (if Lookup(visited, true, s[|s| - 1].x, s[|s| - 1].y) then 1 else 0)
  }

  /** Pushing unvisited cells adds no stale entries. */
  lemma {:induction false} StaleFresh(s: seq<Point>, ps: seq<Point>, visited: Grid)
    requires forall q :: q in ps ==> !Lookup(visited, true, q.x, q.y)
    ensures Stale(s + ps, visited) == Stale(s, visited)
    decreases |ps|
  {
    if ps == [] {
      assert s + ps == s;
    } else {
      var init := ps[..|ps| - 1];
      assert (s + ps)[..|s + ps| - 1] == s + init;
      assert ps[|ps| - 1] in ps;
      StaleFresh(s, init, visited);
    }
  }

  /** Every stacked point lies in the grid. */
  ghost predicate StackInGrid(stack: seq<Point>, g: Grid) {
    forall q :: q in stack ==> InGrid(g, q.x, q.y)
  }

  /** `visited` marks exactly the popped cells. */
  ghost predicate Marks(visited: Grid, seen: set<Point>) {
    (forall q :: q in seen ==> InGrid(visited, q.x, q.y)) &&
    forall x, y :: InGrid(visited, x, y) ==> (visited[x][y] <==> Point(x, y) in seen)
  }

  /** `cells` is `orig` with exactly the carved cells opened. */
  ghost predicate CarvedFrom(cells: Grid, orig: Grid, carved: seq<Point>) {
    |cells| == |orig| && (forall x :: 0 <= x < |orig| ==> |cells[x]| == |orig[x]|) &&
    forall x, y :: InGrid(orig, x, y) ==> cells[x][y] == (orig[x][y] && Point(x, y) !in carved)
  }

  /** The first carved cell is the start; each later one shares a side with an earlier one. */
  ghost predicate Connected(carved: seq<Point>) {
    (carved != [] ==> carved[0] == Start) &&
    forall k :: 0 < k < |carved| ==> exists j :: 0 <= j < k && Adjacent(carved[j], carved[k])
  }

  /** `q` shares a side with some carved cell. */
  ghost predicate Reached(carved: seq<Point>, q: Point) {
    exists j :: 0 <= j < |carved| && Adjacent(carved[j], q)
  }

  /** Before the first carving the stack holds at most the start; after, every entry neighbours a carved cell. */
  ghost predicate Provenance(stack: seq<Point>, carved: seq<Point>) {
    (carved == [] ==> stack == [] || stack == [Start]) &&
    (carved != [] ==> forall q :: q in stack ==> Reached(carved, q))
  }

  /** Every in-grid neighbour of a carved cell has been popped or waits on the stack. */
  ghost predicate Closed(g: Grid, carved: seq<Point>, seen: set<Point>, stack: seq<Point>) {
    forall j, q :: 0 <= j < |carved| && Adjacent(carved[j], q) && InGrid(g, q.x, q.y) ==> q in seen || q in stack
  }

  /** The invariant of the search loop of `fill_labyrinth` over an `h` by `w` grid that started as `orig`. */
  ghost predicate Search(h: int, w: int, orig: Grid, cells: Grid, carved: seq<Point>, visited: Grid,
                         seen: set<Point>, stack: seq<Point>) {
    SearchGrids(h, w, orig, cells, carved, visited, seen, stack) && SearchShape(visited, carved, seen, stack)
  }

  /** The grids keep their shape, `cells` differs from `orig` just at the carved cells, and all indices are in range. */
  ghost predicate SearchGrids(h: int, w: int, orig: Grid, cells: Grid, carved: seq<Point>, visited: Grid,
                              seen: set<Point>, stack: seq<Point>) {
    Rect(orig, h, w) && Rect(cells, h, w) && Rect(visited, h, w) &&
    CarvedFrom(cells, orig, carved) &&
    Marks(visited, seen) &&
    StackInGrid(stack, visited) &&
    (forall k :: 0 <= k < |carved| ==> carved[k] in seen)
  }

  /** The carved cells are connected and every neighbour of one is visited or stacked. */
  ghost predicate SearchShape(visited: Grid, carved: seq<Point>, seen: set<Point>, stack: seq<Point>) {
    Connected(carved) &&
    Provenance(stack, carved) &&
    Closed(visited, carved, seen, stack) &&
    (Start in seen || stack == [Start])
  }

  /** `visited[x][y] = true` for the popped cell `p`. */
  function Mark(g: Grid, p: Point): (r: Grid)
    requires InGrid(g, p.x, p.y)
    ensures |r| == |g| && forall x :: 0 <= x < |g| ==> |r[x]| == |g[x]|
    ensures forall x, y :: InGrid(g, x, y) ==> r[x][y] == (g[x][y] || Point(x, y) == p)
  {
    g[p.x := g[p.x][p.y := true]]
  }

  lemma PopMarks(visited: Grid, seen: set<Point>, stack: seq<Point>)
    requires Marks(visited, seen) && StackInGrid(stack, visited) && stack != []
    ensures var f := stack[|stack| - 1];
      InGrid(visited, f.x, f.y) &&
      Marks(Mark(visited, f), seen + {f}) && StackInGrid(stack[..|stack| - 1], Mark(visited, f))
  {
    var f := stack[|stack| - 1];
    assert f in stack;
    forall q | q in stack[..|stack| - 1] ensures q in stack {
    }
  }

  lemma PopClosed(visited: Grid, carved: seq<Point>, seen: set<Point>, stack: seq<Point>)
    requires Closed(visited, carved, seen, stack) && stack != []
    requires InGrid(visited, stack[|stack| - 1].x, stack[|stack| - 1].y)
    ensures var f := stack[|stack| - 1];
      Closed(Mark(visited, f), carved, seen + {f}, stack[..|stack| - 1])
  {
    var f := stack[|stack| - 1];
    var init := stack[..|stack| - 1];
    assert stack == init + [f];
    forall j, q | 0 <= j < |carved| && Adjacent(carved[j], q) && InGrid(Mark(visited, f), q.x, q.y)
      ensures q in seen + {f} || q in init
    {
      assert q in seen || q in stack;
    }
  }

  lemma PopProvenance(stack: seq<Point>, carved: seq<Point>)
    requires Provenance(stack, carved) && stack != []
    ensures Provenance(stack[..|stack| - 1], carved)
    ensures carved == [] ==> stack[|stack| - 1] == Start && stack[..|stack| - 1] == []
    ensures carved != [] ==> Reached(carved, stack[|stack| - 1])
  {
    assert stack[|stack| - 1] in stack;
    forall q | q in stack[..|stack| - 1] ensures q in stack {
    }
  }

  lemma PopDecreases(visited: Grid, stack: seq<Point>)
    requires stack != [] && InGrid(visited, stack[|stack| - 1].x, stack[|stack| - 1].y)
    ensures var f := stack[|stack| - 1];
      Unvisited(Mark(visited, f)) < Unvisited(visited) ||
      (Unvisited(Mark(visited, f)) == Unvisited(visited) &&
       Stale(stack[..|stack| - 1], Mark(visited, f)) < Stale(stack, visited))
  {
    var f := stack[|stack| - 1];
    MarkGrid(visited, f.x, f.y);
    if visited[f.x][f.y] {
      assert visited[f.x][f.y := true] == visited[f.x];
      assert Mark(visited, f) == visited;
    }
  }

  /**
   * Popping the top `f` of the stack and marking it visited keeps the
   * invariant, and decreases the unvisited cells, or else the stale entries.
   */
  lemma PopKeeps(h: int, w: int, orig: Grid, cells: Grid, carved: seq<Point>, visited: Grid,
                 seen: set<Point>, stack: seq<Point>)
    requires Search(h, w, orig, cells, carved, visited, seen, stack) && stack != []
    ensures var f := stack[|stack| - 1];
      InGrid(visited, f.x, f.y) &&
      Search(h, w, orig, cells, carved, Mark(visited, f), seen + {f}, stack[..|stack| - 1]) &&
      (carved == [] ==> f == Start && stack[..|stack| - 1] == []) &&
      (carved != [] ==> Reached(carved, f)) && Start in seen + {f} &&
      (Unvisited(Mark(visited, f)) < Unvisited(visited) ||
       (Unvisited(Mark(visited, f)) == Unvisited(visited) &&
        Stale(stack[..|stack| - 1], Mark(visited, f)) < Stale(stack, visited)))
  {
    PopMarks(visited, seen, stack);
    PopClosed(visited, carved, seen, stack);
    PopProvenance(stack, carved);
    PopDecreases(visited, stack);
  }

  lemma CarveCells(orig: Grid, cells: Grid, carved: seq<Point>, f: Point)
    requires CarvedFrom(cells, orig, carved) && InGrid(orig, f.x, f.y)
    ensures CarvedFrom(cells[f.x := cells[f.x][f.y := false]], orig, carved + [f])
  {
  }

  lemma CarveConnected(carved: seq<Point>, f: Point)
    requires Connected(carved) && (carved == [] ==> f == Start) && (carved != [] ==> Reached(carved, f))
    ensures Connected(carved + [f])
  {
    var carved1 := carved + [f];
    forall k | 0 < k < |carved1| ensures exists j :: 0 <= j < k && Adjacent(carved1[j], carved1[k]) {
      if k < |carved| {
        var j :| 0 <= j < k && Adjacent(carved[j], carved[k]);
        assert carved1[j] == carved[j];
      } else {
        var j :| 0 <= j < |carved| && Adjacent(carved[j], f);
        assert carved1[j] == carved[j];
      }
    }
  }

  lemma CarveProvenance(visited: Grid, carved: seq<Point>, stack: seq<Point>, f: Point, pushed: seq<Point>)
    requires PushesNeighbours(visited, f, pushed)
    requires Provenance(stack, carved) && (carved == [] ==> stack == [])
    ensures Provenance(stack + pushed, carved + [f])
  {
    var carved1 := carved + [f];
    forall q | q in stack + pushed ensures Reached(carved1, q) {
      if q in stack {
        assert Reached(carved, q);
        var j :| 0 <= j < |carved| && Adjacent(carved[j], q);
        assert carved1[j] == carved[j];
      } else {
        assert carved1[|carved|] == f;
      }
    }
  }

  lemma CarveClosed(visited: Grid, carved: seq<Point>, seen: set<Point>, stack: seq<Point>, f: Point,
                    pushed: seq<Point>)
    requires Closed(visited, carved, seen, stack) && Marks(visited, seen) && PushesNeighbours(visited, f, pushed)
    ensures Closed(visited, carved + [f], seen, stack + pushed)
  {
    var carved1 := carved + [f];
    var stack1 := stack + pushed;
    forall j, q | 0 <= j < |carved1| && Adjacent(carved1[j], q) && InGrid(visited, q.x, q.y)
      ensures q in seen || q in stack1
    {
      if j < |carved| {
        assert carved1[j] == carved[j];
        assert q in seen || q in stack;
      }
    }
  }

  /** Carving the popped cell `f` and stacking the cells `good_neighbors` pushes keeps the grids in shape. */
  lemma CarveGrids(h: int, w: int, orig: Grid, cells: Grid, carved: seq<Point>, visited: Grid,
                   seen: set<Point>, stack: seq<Point>, f: Point, pushed: seq<Point>)
    requires SearchGrids(h, w, orig, cells, carved, visited, seen, stack) && f in seen
    requires PushesNeighbours(visited, f, pushed)
    ensures InGrid(cells, f.x, f.y)
    ensures SearchGrids(h, w, orig, cells[f.x := cells[f.x][f.y := false]], carved + [f], visited, seen,
                        stack + pushed)
    ensures Stale(stack + pushed, visited) == Stale(stack, visited)
  {
    StaleFresh(stack, pushed, visited);
    CarveCells(orig, cells, carved, f);
  }

  /** ... and keeps the carved region connected and closed. */
  lemma CarveShape(visited: Grid, carved: seq<Point>, seen: set<Point>, stack: seq<Point>, f: Point,
                   pushed: seq<Point>)
    requires SearchShape(visited, carved, seen, stack) && Marks(visited, seen) && Start in seen
    requires PushesNeighbours(visited, f, pushed)
    requires f in seen && (carved == [] ==> f == Start && stack == []) && (carved != [] ==> Reached(carved, f))
    ensures SearchShape(visited, carved + [f], seen, stack + pushed)
  {
    CarveConnected(carved, f);
    CarveProvenance(visited, carved, stack, f, pushed);
    CarveClosed(visited, carved, seen, stack, f, pushed);
  }

  /**
   * What `fill_labyrinth` leaves behind over a grid that was `orig`: the same
   * shape; only the carved cells changed, from wall to open; the carved cells
   * start at `Start` and form a connected region; the search popped `Start`,
   * every carved cell and every in-grid cell next to a carved one, and nothing
   * off the grid.
   */
  ghost predicate Filled(orig: Grid, cells: Grid, carved: seq<Point>, seen: set<Point>) {
    |orig| > 0 && Rect(cells, |orig|, |orig[0]|) &&
    CarvedFrom(cells, orig, carved) &&
    Connected(carved) &&
    Start in seen && (forall k :: 0 <= k < |carved| ==> carved[k] in seen) &&
    (forall q :: q in seen ==> InGrid(cells, q.x, q.y)) &&
    (forall j, q :: 0 <= j < |carved| && Adjacent(carved[j], q) && InGrid(cells, q.x, q.y) ==> q in seen)
  }

  /**
   * The first pop is the start, on the unchanged grid: it is carved exactly
   * when it is not essential there, and if it is essential nothing else is
   * ever stacked.
   */
  ghost predicate StartRule(orig: Grid, carved: seq<Point>, seen: set<Point>) {
    (Essential(orig, Start) ==> carved == []) &&
    (Start in seen && !Essential(orig, Start) ==> carved != [])
  }

  /** `orig` with the cells of `cs` carved: the grid once the search has carved them. */
  function Opened(orig: Grid, cs: seq<Point>): (g: Grid)
    ensures CarvedFrom(g, orig, cs)
  {
    seq(|orig|, x requires 0 <= x < |orig| =>
      seq(|orig[x]|, y requires 0 <= y < |orig[x]| => orig[x][y] && Point(x, y) !in cs))
  }

  /** A grid that is `orig` with exactly the carved cells opened is `Opened(orig, carved)`. */
  lemma CarvedFromIsOpened(cells: Grid, orig: Grid, carved: seq<Point>)
    requires CarvedFrom(cells, orig, carved)
    ensures cells == Opened(orig, carved)
  {
    var g := Opened(orig, carved);
    forall x | 0 <= x < |orig| ensures cells[x] == g[x] {
      assert forall y :: 0 <= y < |cells[x]| ==> cells[x][y] == g[x][y];
    }
  }

  /**
   * Every carved cell was carved on a grid where it was not essential: the
   * `k`-th one on `orig` with the first `k` carved.
   */
  ghost predicate CarvedInessential(orig: Grid, carved: seq<Point>) {
    forall k :: 0 <= k < |carved| ==> !Essential(Opened(orig, carved[..k]), carved[k])
  }

  /** Every popped cell that was not carved is essential in `cells`. */
  ghost predicate KeptEssential(cells: Grid, carved: seq<Point>, seen: set<Point>) {
    forall q :: q in seen && q !in carved ==> Essential(cells, q)
  }

  /**
   * Opening cells never makes a cell inessential: every cell open in `c1` is
   * open in `c2`, so every empty neighbour in `c1` is one in `c2`.
   */
  lemma EssentialMonotone(c1: Grid, c2: Grid, p: Point)
    requires |c1| == |c2| && forall x :: 0 <= x < |c1| ==> |c1[x]| == |c2[x]|
    requires forall x, y :: InGrid(c1, x, y) && c2[x][y] ==> c1[x][y]
    ensures Essential(c1, p) ==> Essential(c2, p)
  {
  }

  /** Carving `f`, which is not essential on the grid carved so far, keeps `CarvedInessential`. */
  lemma CarveInessential(orig: Grid, carved: seq<Point>, f: Point)
    requires CarvedInessential(orig, carved) && !Essential(Opened(orig, carved), f)
    ensures CarvedInessential(orig, carved + [f])
  {
    var carved1 := carved + [f];
    forall k | 0 <= k < |carved1| ensures !Essential(Opened(orig, carved1[..k]), carved1[k]) {
      if k < |carved| {
        assert carved1[..k] == carved[..k] && carved1[k] == carved[k];
      } else {
        assert carved1[..k] == carved && carved1[k] == f;
      }
    }
  }

  /** Carving `f` keeps every popped, uncarved cell essential, since it only opens a cell. */
  lemma CarveKeptEssential(cells: Grid, carved: seq<Point>, seen: set<Point>, f: Point)
    requires KeptEssential(cells, carved, seen) && InGrid(cells, f.x, f.y)
    ensures KeptEssential(cells[f.x := cells[f.x][f.y := false]], carved + [f], seen)
  {
    var cells1 := cells[f.x := cells[f.x][f.y := false]];
    forall q | q in seen && q !in carved + [f] ensures Essential(cells1, q) {
      EssentialMonotone(cells, cells1, q);
    }
  }

  /** Popping `f` and finding it essential keeps every popped, uncarved cell essential. */
  lemma PopKeptEssential(cells: Grid, carved: seq<Point>, seen: set<Point>, f: Point)
    requires KeptEssential(cells, carved, seen) && Essential(cells, f)
    ensures KeptEssential(cells, carved, seen + {f})
  {
  }

  /**
   * Carving the popped cell `f`, which is not essential, and stacking what
   * `good_neighbors` pushes keeps every invariant of the search loop.
   */
  lemma CarveStep(h: int, w: int, orig: Grid, cells: Grid, carved: seq<Point>, visited: Grid,
                  seen0: set<Point>, stack: seq<Point>, f: Point)
    requires Search(h, w, orig, cells, carved, visited, seen0 + {f}, stack)
    requires InGrid(visited, f.x, f.y) && visited[f.x][f.y]
    requires (carved == [] ==> f == Start && stack == [] && cells == orig) && (carved != [] ==> Reached(carved, f))
    requires Start in seen0 + {f}
    requires StartRule(orig, carved, seen0)
    requires CarvedInessential(orig, carved) && KeptEssential(cells, carved, seen0)
    requires !Essential(cells, f)
    ensures InGrid(cells, f.x, f.y)
    ensures var cells1, carved1, stack1 := cells[f.x := cells[f.x][f.y := false]], carved + [f], stack + Pushed(visited, f);
      Search(h, w, orig, cells1, carved1, visited, seen0 + {f}, stack1) &&
      StartRule(orig, carved1, seen0 + {f}) &&
      CarvedInessential(orig, carved1) && KeptEssential(cells1, carved1, seen0 + {f}) &&
      Stale(stack1, visited) == Stale(stack, visited)
  {
    var seen := seen0 + {f};
    CarvedFromIsOpened(cells, orig, carved);
    CarveInessential(orig, carved, f);
    CarveKeptEssential(cells, carved, seen0, f);
    var cells1 := cells[f.x := cells[f.x][f.y := false]];
    assert KeptEssential(cells1, carved + [f], seen);
    PushedNeighbours(visited, f);
    CarveGrids(h, w, orig, cells, carved, visited, seen, stack, f, Pushed(visited, f));
    CarveShape(visited, carved, seen, stack, f, Pushed(visited, f));
  }

  /** Before anything is carved the cells are the original ones. */
  lemma CarvedNone(h: int, w: int, orig: Grid, cells: Grid)
    requires Rect(orig, h, w) && Rect(cells, h, w) && CarvedFrom(cells, orig, [])
    ensures cells == orig
  {
    forall x | 0 <= x < h ensures cells[x] == orig[x] {
    }
  }

  /** The search starts with nothing visited and only `Start` on the stack. */
  lemma SearchStart(h: int, w: int, orig: Grid, visited: Grid)
    requires h >= 2 && w >= 2 && Rect(orig, h, w) && Rect(visited, h, w)
    requires forall x, y :: InGrid(visited, x, y) ==> !visited[x][y]
    ensures Search(h, w, orig, orig, [], visited, {}, [Start])
  {
  }

  /** Once the stack is empty the invariant gives `Filled`. */
  lemma SearchDone(h: int, w: int, orig: Grid, cells: Grid, carved: seq<Point>, visited: Grid, seen: set<Point>)
    requires h > 0 && Search(h, w, orig, cells, carved, visited, seen, [])
    ensures Filled(orig, cells, carved, seen)
  {
  }

  /** `vec![vec![true; width]; height]`: `height` rows of `width` walls. */
  function Walls(width: nat, height: nat): (g: Grid)
    ensures Rect(g, height, width)
    ensures forall x, y :: InGrid(g, x, y) ==> g[x][y]
  {
    seq(height, _ => seq(width, _ => true))
  }

  /**
   * On a grid of walls the start is essential exactly when the grid is two
   * cells high or wide: then its 3x3 block reaches off the grid, which counts
   * as empty, on two opposite sides.
   */
  lemma StartEssentialWhenNarrow(width: nat, height: nat)
    requires width >= 2 && height >= 2
    ensures Essential(Walls(width, height), Start) <==> width == 2 || height == 2
  {
    var g := Walls(width, height);
    if width == 2 {
      assert EmptyAt(g, Start, Direction(Right, Up)) && EmptyAt(g, Start, Direction(Right, Down));
      assert EmptyRow(g, Start, Up) && EmptyRow(g, Start, Down);
    } else if height == 2 {
      assert EmptyAt(g, Start, Direction(Left, Up)) && EmptyAt(g, Start, Direction(Right, Up));
      assert EmptyColumn(g, Start, Left) && EmptyColumn(g, Start, Right);
    } else {
      assert !EmptyColumn(g, Start, Left) && !EmptyRow(g, Start, Down);
    }
  }

  /** `if y {'#'} else {' '}`. */
  function Glyph(b: bool): (c: char)
    ensures c == '#' <==> b
    ensures c != '\n'
  {
    if b then '#' else ' '
  }

  /** A row as printed: one glyph per cell. */
  function Line(r: seq<bool>): (l: string)
    ensures |l| == |r|
  {
    if r == [] then [] else Line(r[..|r| - 1]) + [Glyph(r[|r| - 1])]
  }

  /** The printed lines of a grid, top row (last index) first. */
  function Lines(c: Grid): seq<string> {
    if c == [] then [] else [Line(c[|c| - 1])] + Lines(c[..|c| - 1])
  }

  /** `join(sep)`: the strings with `sep` between neighbours. */
  function Join(ls: seq<string>, sep: char): string {
    if ls == [] then []
    else if |ls| == 1 then ls[0]
    else ls[0] + [sep] + Join(ls[1..], sep)
  }

  /** What `Debug::fmt` writes. */
  function DebugText(c: Grid): string {
    Join(Lines(c), '\n')
  }

  /**
   * What `Display::fmt` writes for rows `|c| - 1` down to `i`: each row's
   * glyphs, then a newline unless the row index equals the row length minus one.
   */
  function DisplayRows(c: Grid, i: nat): string
    requires i <= |c|
    decreases |c| - i
  {
    if i == |c| then []
    else DisplayRows(c, i + 1) + Line(c[i]) + (if i != |c[i]| - 1 then "\n" else [])
  }

  /** What `Display::fmt` writes. */
  function DisplayText(c: Grid): string {
    DisplayRows(c, 0)
  }

  /** `Display::fmt` with the newline written between rows, that is after every row but row 0. */
  function DisplayCorrectedRows(c: Grid, i: nat): string
    requires i <= |c|
    decreases |c| - i
  {
    if i == |c| then []
    else DisplayCorrectedRows(c, i + 1) + Line(c[i]) + (if i != 0 then "\n" else [])
  }

  function DisplayCorrected(c: Grid): string {
    DisplayCorrectedRows(c, 0)
  }

  /** Reads a printed line back: `'#'` is a wall. */
  function ParseLine(l: string): seq<bool> {
    if l == [] then [] else ParseLine(l[..|l| - 1]) + [l[|l| - 1] == '#']
  }

  /** Splits at every `sep`; always at least one piece. */
  function Split(s: string, sep: char): (r: seq<string>)
    ensures |r| >= 1
    decreases |s|
  {
    if s == [] then [[]]
    else if s[0] == sep then [[]] + Split(s[1..], sep)
    else
      var rest := Split(s[1..], sep);
      [[s[0]] + rest[0]] + rest[1..]
  }

  /** The grid whose printed lines, top row first, are `ls`. */
  function Rows(ls: seq<string>): Grid {
    if ls == [] then [] else Rows(ls[1..]) + [ParseLine(ls[0])]
  }

  /** Reads `Debug` output back into a grid. */
  function ParseDebug(s: string): Grid {
    Rows(Split(s, '\n'))
  }

  lemma {:induction false} ParseLineOfLine(r: seq<bool>)
    ensures ParseLine(Line(r)) == r
    ensures '\n' !in Line(r)
    decreases |r|
  {
    if r != [] {
      var init := r[..|r| - 1];
      ParseLineOfLine(init);
      var l := Line(r);
      assert l[..|l| - 1] == Line(init);
      assert r == init + [r[|r| - 1]];
    }
  }

  lemma {:induction false} RowsOfLines(c: Grid)
    ensures Rows(Lines(c)) == c
    ensures forall l :: l in Lines(c) ==> '\n' !in l
    ensures |Lines(c)| == |c|
    decreases |c|
  {
    if c != [] {
      var init, last := c[..|c| - 1], c[|c| - 1];
      RowsOfLines(init);
      ParseLineOfLine(last);
      var ls := Lines(c);
      assert ls == [Line(last)] + Lines(init);
      assert ls[0] == Line(last) && ls[1..] == Lines(init);
      assert Rows(ls) == Rows(Lines(init)) + [ParseLine(Line(last))];
      assert c == init + [last];
      forall l | l in ls
        ensures '\n' !in l
      {
        if l != ls[0] {
          assert l in ls[1..];
        }
      }
    }
  }

  /** Splitting a line without separators followed by `t`. */
  lemma {:induction false} SplitPrefix(l: string, t: string, sep: char)
    requires sep !in l
    ensures Split(l + t, sep) == [l + Split(t, sep)[0]] + Split(t, sep)[1..]
    decreases |l|
  {
    var st := Split(t, sep);
    if l != [] {
      SplitPrefix(l[1..], t, sep);
      assert (l + t)[1..] == l[1..] + t;
      var rest := Split(l[1..] + t, sep);
      assert (l + t)[0] == l[0] && l[0] != sep;
      assert Split(l + t, sep) == [[l[0]] + rest[0]] + rest[1..];
      assert rest[0] == l[1..] + st[0] && rest[1..] == st[1..];
      assert [l[0]] + (l[1..] + st[0]) == l + st[0];
    } else {
      assert l + t == t && l + st[0] == st[0];
      assert st == [st[0]] + st[1..];
    }
  }

  lemma {:induction false} SplitJoin(ls: seq<string>, sep: char)
    requires ls != [] && forall l :: l in ls ==> sep !in l
    ensures Split(Join(ls, sep), sep) == ls
    decreases |ls|
  {
    if |ls| == 1 {
      SplitPrefix(ls[0], [], sep);
      assert ls[0] + [] == ls[0];
    } else {
      SplitJoin(ls[1..], sep);
      var t := [sep] + Join(ls[1..], sep);
      SplitPrefix(ls[0], t, sep);
      assert ls[0] + [sep] + Join(ls[1..], sep) == ls[0] + t;
      assert t[1..] == Join(ls[1..], sep);
      assert ls[0] + [] == ls[0];
      assert ls == [ls[0]] + ls[1..];
    }
  }

  /** `Debug` output reads back as the grid it printed. */
  lemma ParseDebugText(c: Grid)
    requires c != []
    ensures ParseDebug(DebugText(c)) == c
  {
    RowsOfLines(c);
    SplitJoin(Lines(c), '\n');
  }

  lemma {:induction false} JoinShape(ls: seq<string>, sep: char)
    requires ls != [] && forall l :: l in ls ==> sep !in l
    ensures |Join(ls, sep)| == Sum(ls) + |ls| - 1
    ensures multiset(Join(ls, sep))[sep] == |ls| - 1
    decreases |ls|
  {
    if |ls| > 1 {
      JoinShape(ls[1..], sep);
      assert ls[0] in ls;
      assert multiset(ls[0])[sep] == 0;
      assert multiset(ls[0] + [sep] + Join(ls[1..], sep)) ==
        multiset(ls[0]) + multiset([sep]) + multiset(Join(ls[1..], sep));
    } else {
      assert ls[0] in ls;
    }
  }

  /** Total length of the strings. */
  function Sum(ls: seq<string>): nat {
    if ls == [] then 0 else |ls[0]| + Sum(ls[1..])
  }

  lemma {:induction false} SumOfLines(c: Grid, h: nat, w: nat)
    requires Rect(c, h, w)
    ensures Sum(Lines(c)) == h * w
    decreases h
  {
    if c != [] {
      var init := c[..|c| - 1];
      assert Rect(init, h - 1, w) by {
        forall i | 0 <= i < |init| ensures |init[i]| == w {
          assert init[i] == c[i];
        }
      }
      SumOfLines(init, h - 1, w);
      var ls := Lines(c);
      assert ls[0] == Line(c[|c| - 1]) && ls[1..] == Lines(init);
    }
  }

  /** `Debug` writes `h * w` glyphs and `h - 1` newlines. */
  lemma DebugShape(c: Grid, h: nat, w: nat)
    requires h >= 1 && Rect(c, h, w)
    ensures |DebugText(c)| == h * w + h - 1
    ensures multiset(DebugText(c))['\n'] == h - 1
  {
    RowsOfLines(c);
    SumOfLines(c, h, w);
    JoinShape(Lines(c), '\n');
  }

  lemma {:induction false} JoinAppend(ls: seq<string>, l: string, sep: char)
    requires ls != []
    ensures Join(ls + [l], sep) == Join(ls, sep) + [sep] + l
    decreases |ls|
  {
    if |ls| == 1 {
      assert (ls + [l])[1..] == [l];
    } else {
      JoinAppend(ls[1..], l, sep);
      assert (ls + [l])[1..] == ls[1..] + [l];
    }
  }

  lemma {:induction false} LinesConcat(x: Grid, y: Grid)
    ensures Lines(x + y) == Lines(y) + Lines(x)
    decreases |y|
  {
    if y == [] {
      assert x + y == x;
    } else {
      var init, last := y[..|y| - 1], y[|y| - 1];
      LinesConcat(x, init);
      assert (x + y)[..|x + y| - 1] == x + init;
      assert (x + y)[|x + y| - 1] == last;
      assert Lines(x + y) == [Line(last)] + Lines(x + init);
      assert Lines(y) == [Line(last)] + Lines(init);
    }
  }

  /** The lines of rows `|c| - 1` down to `i`, one row at a time. */
  lemma LinesFrom(c: Grid, i: nat)
    requires i < |c|
    ensures Lines(c[i..]) == Lines(c[i + 1..]) + [Line(c[i])]
  {
    assert c[i..] == [c[i]] + c[i + 1..];
    LinesConcat([c[i]], c[i + 1..]);
    assert Lines([c[i]]) == [Line(c[i])];
  }

  lemma {:induction false} DisplayCorrectedRowsJoin(c: Grid, i: nat)
    requires i < |c|
    ensures DisplayCorrectedRows(c, i) == Join(Lines(c[i..]), '\n') + (if i != 0 then "\n" else [])
    decreases |c| - i
  {
    LinesFrom(c, i);
    if i + 1 == |c| {
      assert Lines(c[i + 1..]) == [];
    } else {
      DisplayCorrectedRowsJoin(c, i + 1);
      JoinAppend(Lines(c[i + 1..]), Line(c[i]), '\n');
    }
  }

  /** Corrected, `Display` writes exactly what `Debug` writes. */
  lemma DisplayCorrectedIsDebug(c: Grid)
    ensures DisplayCorrected(c) == DebugText(c)
  {
    if c != [] {
      DisplayCorrectedRowsJoin(c, 0);
      assert c[0..] == c;
    }
  }

  lemma {:induction false} DisplayRowsWide(c: Grid, h: nat, w: nat, i: nat)
    requires Rect(c, h, w) && w > h && i < h
    ensures DisplayRows(c, i) == Join(Lines(c[i..]), '\n') + "\n"
    decreases h - i
  {
    LinesFrom(c, i);
    if i + 1 == h {
      assert Lines(c[i + 1..]) == [];
    } else {
      DisplayRowsWide(c, h, w, i + 1);
      JoinAppend(Lines(c[i + 1..]), Line(c[i]), '\n');
    }
  }

  /**
   * As written, `Display` compares the row index with the row length: on a
   * grid wider than it is high it writes a newline after the last row too.
   */
  lemma DisplayWideEndsInNewline(c: Grid, h: nat, w: nat)
    requires h >= 1 && Rect(c, h, w) && w > h
    ensures DisplayText(c) == DebugText(c) + "\n"
  {
    DisplayRowsWide(c, h, w, 0);
    assert c[0..] == c;
  }

  /**
   * ... and on a 2 by 2 grid of walls it writes the second printed row
   * straight after the first and the newline at the end.
   */
  lemma DisplaySquareMisplacesNewline()
    ensures DisplayText([[true, true], [true, true]]) == "####\n"
    ensures DebugText([[true, true], [true, true]]) == "##\n##"
  {
    var r := [true, true];
    var c := [r, r];
    assert Line(r) == "##" by {
      assert r[..1] == [true];
      var one: seq<bool> := [true];
      assert Line(one) == "#" by {
        assert one[..0] == [];
      }
    }
    assert c[..1] == [r];
    assert Lines(c) == ["##", "##"] by {
      var one: Grid := [r];
      assert Lines(one) == ["##"] by {
        assert one[..0] == [];
      }
    }
    assert DisplayRows(c, 1) == "##";
    assert DisplayRows(c, 0) == "##" + "##" + "\n";
    assert Join(["##", "##"], '\n') == "##" + "\n" + "##";
  }

  class Labyrinth {
    var cells: Grid
    /** The cells the last search carved, in carving order. */
    ghost var carved: seq<Point>
    /** The cells the last search popped from its stack. */
    ghost var seen: set<Point>

    /** As built by `new`: at least two rows of at least two cells, all rows alike. */
    ghost predicate Valid()
      reads this
    {
      |cells| >= 2 && |cells[0]| >= 2 && Rect(cells, |cells|, |cells[0]|)
    }

    /** `*c.get(vidx).unwrap_or(&e).get(hidx).unwrap_or(&def)`, with `e` a row of `def`s. */
    static method Get(c: Grid, e: seq<bool>, def: bool, vidx: int, hidx: int) returns (value: bool)
      requires forall i :: 0 <= i < |e| ==> e[i] == def
      ensures value == Lookup(c, def, vidx, hidx)
    {
      var row := if 0 <= vidx < |c| then c[vidx] else e;
      value := if 0 <= hidx < |row| then row[hidx] else def;
    }

    /**
     * `Labyrinth::new(width, height)`: `height` rows of `width` walls, then
     * carved by `fill_labyrinth`. The source needs both at least 2, since the
     * search starts at `(1, 1)`. A grid two cells high or wide stays all wall.
     */
    constructor (width: nat, height: nat)
      requires width >= 2 && height >= 2
      ensures Valid() && Rect(cells, height, width)
      ensures Filled(Walls(width, height), cells, carved, seen)
      ensures CarvedInessential(Walls(width, height), carved) && KeptEssential(cells, carved, seen)
      ensures forall x, y :: InGrid(cells, x, y) ==> (cells[x][y] <==> Point(x, y) !in carved)
      ensures carved == [] <==> width == 2 || height == 2
    {
      cells := Walls(width, height);
      new;
      StartEssentialWhenNarrow(width, height);
      FillLabyrinth();
    }

    /**
     * `fill_labyrinth`: a depth-first search from `Start` that carves every
     * popped cell that is not essential and stacks its unvisited side
     * neighbours. The grid keeps its shape, only carved cells change (from
     * wall to open), the carved cells form a connected region from `Start`,
     * and every cell next to a carved one has been visited.
     */
    method FillLabyrinth()
      requires Valid()
      modifies this
      ensures Valid() && Filled(old(cells), cells, carved, seen)
      ensures CarvedInessential(old(cells), carved) && KeptEssential(cells, carved, seen)
      ensures carved == [] <==> Essential(old(cells), Start)
    {
      ghost var orig := cells;
      ghost var h, w := |cells|, |cells[0]|;
      carved := [];
      seen := {};
      var width := |cells[0]|;
      var visited := seq(|cells|, _ => seq(width, _ => false));
      var stack := [Start];
      SearchStart(h, w, orig, visited);
      while stack != []
        invariant Search(h, w, orig, cells, carved, visited, seen, stack)
        invariant StartRule(orig, carved, seen)
        invariant CarvedInessential(orig, carved) && KeptEssential(cells, carved, seen)
        decreases Unvisited(visited), Stale(stack, visited)
      {
        PopKeeps(h, w, orig, cells, carved, visited, seen, stack);
        var f := stack[|stack| - 1];
        ghost var seen0 := seen;
        stack := stack[..|stack| - 1];
        visited := visited[f.x := visited[f.x][f.y := true]];
        seen := seen + {f};
        if carved == [] {
          CarvedNone(h, w, orig, cells);
        }
        var ess := EssentialCell(f);
        if ess {
          PopKeptEssential(cells, carved, seen0, f);
          continue;
        }
        CarveStep(h, w, orig, cells, carved, visited, seen0, stack, f);
        FoldGoodNeighbors(stack, Around(visited, true, false, f));
        cells := cells[f.x := cells[f.x][f.y := false]];
        carved := carved + [f];
        stack := FilterAround(visited, true, false, f, stack, GoodNeighbors);
      }
      SearchDone(h, w, orig, cells, carved, visited, seen);
    }

    /** `Debug::fmt`: the rows from the last to the first, as glyphs, joined by newlines. */
    method DebugFmt() returns (s: string)
      ensures s == DebugText(cells)
    {
      var v: seq<string> := [];
      var i := |cells|;
      while i > 0
        invariant 0 <= i <= |cells|
        invariant v == Lines(cells[i..])
      {
        i := i - 1;
        var row := Line(cells[i]);
        LinesFrom(cells, i);
        v := v + [row];
      }
      assert cells[0..] == cells;
      s := Join(v, '\n');
    }

    /**
     * `Display::fmt`: the rows from the last to the first, glyph by glyph, each
     * followed by a newline unless its index is its length minus one.
     */
    method DisplayFmt() returns (s: string)
      requires Valid()
      ensures s == DisplayText(cells)
    {
      s := [];
      var i := |cells|;
      while i > 0
        invariant 0 <= i <= |cells|
        invariant s == DisplayRows(cells, i)
      {
        i := i - 1;
        var len := |cells[i]|;
        for j := 0 to len
          invariant s == DisplayRows(cells, i + 1) + Line(cells[i][..j])
        {
          assert cells[i][..j + 1][..j] == cells[i][..j];
          s := s + [Glyph(cells[i][j])];
        }
        assert cells[i][..len] == cells[i];
        if i != len - 1 {
          s := s + "\n";
        }
      }
    }

    /**
     * `filter_around`: runs `f` on `t` for every position of the 3x3 block
     * around `p` whose value in `c` (off-grid: `def`) satisfies `!req ^ value`.
     */
    static method FilterAround<T>(c: Grid, def: bool, req: bool, p: Point, t: T,
                                  f: (T, int, int, UpDown, LeftRight) -> T) returns (r: T)
      requires 0 <= p.x < |c| && 0 <= p.y
      ensures r == Fold(f, t, Around(c, def, req, p))
    {
      var e := seq(|c[p.x]|, _ => def);
      var lr := LR;
      var ud := UD;
      r := t;
      for hi := 0 to 3
        invariant r == Filtered(f, t, c, def, req, p, hi, 0)
      {
        for vi := 0 to 3
          invariant r == Filtered(f, t, c, def, req, p, hi, vi)
        {
          var h, v := lr[hi], ud[vi];
          var hidx := p.y + h.Disc();
          var vidx := p.x + v.Disc();
          var value := Get(c, e, def, vidx, hidx);
          assert BlockCall(p, hi, vi) == Call(vidx, hidx, v, h);
          if (!req) != value {
            r := f(r, vidx, hidx, v, h);
          }
        }
      }
      FilteredIsFold(f, t, c, def, req, p, 3, 0);
    }

    /**
     * `empty_neighbors`: the directions of the empty cells of the 3x3 block
     * around `p`, off-grid cells and the centre included.
     */
    method EmptyNeighbors(p: Point) returns (res: seq<Direction>)
      requires 0 <= p.x < |cells| && 0 <= p.y
      ensures forall d :: d in res <==> EmptyAt(cells, p, d)
      ensures |res| <= 9
    {
      res := FilterAround(cells, false, false, p, [], PushDirection);
      FoldPushDirection(Around(cells, false, false, p));
      EmptyDirections(cells, p);
    }

    /**
     * `essential_cell`: some empty neighbour lies in the left column and some in
     * the right column, or some in the row above and some in the row below.
     */
    method EssentialCell(p: Point) returns (b: bool)
      requires 0 <= p.x < |cells| && 0 <= p.y
      ensures b == Essential(cells, p)
    {
      var en := EmptyNeighbors(p);
      // `&&` binds tighter than `||` in the source.
      b := ((exists d :: d in en && d.hdir == Left) && (exists d :: d in en && d.hdir == Right)) ||
           ((exists d :: d in en && d.vdir == Up) && (exists d :: d in en && d.vdir == Down));
    }
  }
}
