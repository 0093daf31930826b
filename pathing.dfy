/**
 * The greedy path builder behind `BuildMoveOrder`: a walk toward the target
 * one axis at a time, and the Rotate/Move actions that follow the walk.
 */
module Pathing {
  import opened Vectors
  import opened Terrains
  import opened DeterministicRandom
  import opened Actors

  /** `Math.Abs`. */
  function Abs(x: int): nat
  {
    if x < 0 then -x else x
  }

  /** `Math.Sign`. */
  function Sign(x: int): int
  {
    if x > 0 then 1 else if x < 0 then -1 else 0
  }

  /** Manhattan distance between two cells. */
  function Dist(x1: int, y1: int, x2: int, y2: int): nat
  {
    Abs(x2 - x1) + Abs(y2 - y1)
  }

  /** `b` lies between `a` and `c`, either way round. */
  predicate Between(a: int, b: int, c: int)
  {
    (a <= b <= c) || (c <= b <= a)
  }

  /**
   * One step of the while loop: along the axis with the larger remaining
   * distance, and on a tie along `x` exactly when `Range(0, 2)` returns 0.
   * The step is to a 4-neighbour, one cell closer to the target, and never
   * leaves the box spanned by the current cell and the target.
   */
  function NextCell(g: RngState, cx: int, cy: int, tx: int, ty: int): (r: (RngState, int, int))
    requires cx != tx || cy != ty
    ensures IsUnitStep(r.1 - cx, r.2 - cy)
    ensures Dist(r.1, r.2, tx, ty) == Dist(cx, cy, tx, ty) - 1
    ensures Between(cx, r.1, tx) && Between(cy, r.2, ty)
    ensures Abs(tx - cx) != Abs(ty - cy) ==> r.0 == g
  {
    var dx, dy := tx - cx, ty - cy;
    if Abs(dx) > Abs(dy) then (g, cx + Sign(dx), cy)
    else if Abs(dy) > Abs(dx) then (g, cx, cy + Sign(dy))
    else
      DrawFromZero(g, 2);
      var (g1, coin) := Draw(g, 0, 2);
      if coin == 0 then (g1, cx + Sign(dx), cy) else (g1, cx, cy + Sign(dy))
  }

  /**
   * The cell indices the while loop appends after the cell `(cx, cy)`, and the
   * generator afterwards. A step is taken when the new cell is at most one
   * higher than the current one and not below 0; the walk ends at the target
   * or at the first step that fails.
   */
  function PathFrom(g: RngState, t: Terrain, cx: int, cy: int, tx: int, ty: int): (RngState, seq<int>)
    requires t.Valid() && t.InGrid(cx, cy) && t.InGrid(tx, ty)
    decreases Dist(cx, cy, tx, ty)
  {
    if cx == tx && cy == ty then (g, [])
    else
      var (g1, nx, ny) := NextCell(g, cx, cy, tx, ty);
      IndexRoundTrip(t, cx, cy);
      IndexRoundTrip(t, nx, ny);
      var ph := t.GetHeight(t.GetIdx(cx, cy));
      var nidx := t.GetIdx(nx, ny);
      var ch := t.GetHeight(nidx);
      if ch - ph <= 1 && ch >= 0 then
        var (g2, rest) := PathFrom(g1, t, nx, ny, tx, ty);
        (g2, [nidx] + rest)
      else (g1, [])
  }

  /**
   * One unfolding of the walk from `(cx, cy)`, whose next cell is `(nx, ny)`
   * with generator `g1`: that cell is in the grid, and its step is taken,
   * or the walk ends there.
   */
  lemma PathFromStep(g: RngState, t: Terrain, cx: int, cy: int, tx: int, ty: int, g1: RngState, nx: int, ny: int)
    requires t.Valid() && t.InGrid(cx, cy) && t.InGrid(tx, ty) && (cx != tx || cy != ty)
    requires (g1, nx, ny) == NextCell(g, cx, cy, tx, ty)
    ensures t.InGrid(nx, ny) && t.InRange(t.GetIdx(cx, cy)) && t.InRange(t.GetIdx(nx, ny))
    ensures var ph, ch := t.GetHeight(t.GetIdx(cx, cy)), t.GetHeight(t.GetIdx(nx, ny));
      var (g', cells) := PathFrom(g, t, cx, cy, tx, ty);
      if ch - ph <= 1 && ch >= 0
      then g' == PathFrom(g1, t, nx, ny, tx, ty).0 && cells == [t.GetIdx(nx, ny)] + PathFrom(g1, t, nx, ny, tx, ty).1
      else g' == g1 && cells == []
  {
    IndexRoundTrip(t, cx, cy);
    IndexRoundTrip(t, nx, ny);
  }

  /** Every index of `path` addresses the map. */
  predicate AllInRange(t: Terrain, path: seq<int>)
  {
    forall k :: 0 <= k < |path| ==> t.InRange(path[k])
  }

  /** Distance from the cell with index `idx` to `(tx, ty)`. */
  function DistTo(t: Terrain, idx: int, tx: int, ty: int): nat
    requires t.size > 0
  {
    Dist(t.GetX(idx), t.GetY(idx), tx, ty)
  }

  /** Consecutive cells of a walk: 4-neighbours, a rise of at most 1, and a height of at least 0. */
  predicate GoodStep(t: Terrain, a: int, b: int)
    requires t.Valid() && t.InRange(a) && t.InRange(b)
  {
    IsUnitStep(t.GetX(b) - t.GetX(a), t.GetY(b) - t.GetY(a)) &&
    t.GetHeight(b) - t.GetHeight(a) <= 1 && t.GetHeight(b) >= 0
  }

  /**
   * `cells` is a walk that starts at distance `d` from `(tx, ty)`: every cell
   * is in the map, the `k`-th is at distance `d - k`, and every step is good.
   */
  predicate IsWalk(t: Terrain, cells: seq<int>, tx: int, ty: int, d: int)
    requires t.Valid()
  {
    1 <= |cells| <= d + 1 && AllInRange(t, cells) &&
    (forall k :: 0 <= k < |cells| ==> DistTo(t, cells[k], tx, ty) == d - k) &&
    (forall k :: 0 < k < |cells| ==> GoodStep(t, cells[k - 1], cells[k]))
  }

  lemma ConsWalk(t: Terrain, c: int, tail: seq<int>, tx: int, ty: int, d: int)
    requires t.Valid() && IsWalk(t, tail, tx, ty, d - 1) && t.InRange(c)
    requires DistTo(t, c, tx, ty) == d && GoodStep(t, c, tail[0])
    ensures IsWalk(t, [c] + tail, tx, ty, d)
  {
    var cells := [c] + tail;
    assert forall k :: 0 < k < |cells| ==> cells[k] == tail[k - 1];
  }

  /** A heightmap index is at distance 0 from a cell of the grid exactly when it is that cell's index. */
  lemma ReachedIff(t: Terrain, idx: int, tx: int, ty: int)
    requires t.Valid() && t.InRange(idx) && t.InGrid(tx, ty)
    ensures DistTo(t, idx, tx, ty) == 0 <==> idx == t.GetIdx(tx, ty)
  {
    CellRoundTrip(t, idx);
    IndexRoundTrip(t, tx, ty);
  }

  /**
   * The walk, with the start cell in front, as the list `path` holds it: it
   * has at most one step per unit of distance; every step goes to a
   * 4-neighbour one cell closer to the target, rises by at most 1 and lands
   * on a height of at least 0; and it ends on the target exactly when it has
   * as many steps as the distance.
   */
  lemma {:induction false} PathShape(g: RngState, t: Terrain, cx: int, cy: int, tx: int, ty: int)
    requires t.Valid() && t.InGrid(cx, cy) && t.InGrid(tx, ty)
    ensures var cells := [t.GetIdx(cx, cy)] + PathFrom(g, t, cx, cy, tx, ty).1;
      IsWalk(t, cells, tx, ty, Dist(cx, cy, tx, ty)) &&
      (cells[|cells| - 1] == t.GetIdx(tx, ty) <==> |cells| - 1 == Dist(cx, cy, tx, ty))
    decreases Dist(cx, cy, tx, ty)
  {
    IndexRoundTrip(t, cx, cy);
    var c := t.GetIdx(cx, cy);
    var d := Dist(cx, cy, tx, ty);
    var cells := [c] + PathFrom(g, t, cx, cy, tx, ty).1;
    assert DistTo(t, c, tx, ty) == d;
    if cx == tx && cy == ty {
      assert cells == [c];
    } else {
      var (g1, nx, ny) := NextCell(g, cx, cy, tx, ty);
      IndexRoundTrip(t, nx, ny);
      var nidx := t.GetIdx(nx, ny);
      if t.GetHeight(nidx) - t.GetHeight(c) <= 1 && t.GetHeight(nidx) >= 0 {
        PathShape(g1, t, nx, ny, tx, ty);
        var tail := [nidx] + PathFrom(g1, t, nx, ny, tx, ty).1;
        assert cells == [c] + tail;
        assert GoodStep(t, c, tail[0]);
        ConsWalk(t, c, tail, tx, ty, d);
      } else {
        assert cells == [c];
      }
    }
    ReachedIff(t, cells[|cells| - 1], tx, ty);
  }

  /** The heading of the step from `path[i - 1]` to `path[i]`. */
  function StepDir(t: Terrain, path: seq<int>, i: int): int
    requires t.size > 0 && 1 <= i < |path|
  {
    ToDir(t.GetX(path[i]) - t.GetX(path[i - 1]), t.GetY(path[i]) - t.GetY(path[i - 1]))
  }

  /**
   * The actions the for loop has built after the steps `1 .. n - 1` of
   * `path`, and the heading `pdir` it then holds: each step adds a Rotate to
   * its heading when that differs from `pdir`, then a Move onto the cell at
   * its terrain height, all with no delays.
   */
  function ActionsUpTo(t: Terrain, path: seq<int>, d0: int, n: int): (seq<ActorAction>, int)
    requires t.Valid() && AllInRange(t, path) && 1 <= n <= |path|
    decreases n
  {
    if n == 1 then ([], d0)
    else
      var (acts, pdir) := ActionsUpTo(t, path, d0, n - 1);
      var prevX, prevY := t.GetX(path[n - 2]), t.GetY(path[n - 2]);
      var newX, newY := t.GetX(path[n - 1]), t.GetY(path[n - 1]);
      var newDir := ToDir(newX - prevX, newY - prevY);
      var turn := if newDir != pdir then [ActorAction(Vec3(newDir, 0, 0), 0, 0, Rotate, false)] else [];
      CellRoundTrip(t, path[n - 1]);
      var step := ActorAction(Vec3(newX, t.GetHeight(t.GetIdx(newX, newY)), newY), 0, 0, Move, false);
      (acts + turn + [step], if newDir != pdir then newDir else pdir)
  }

  /** The targets of the Move actions, in order. */
  function MovesOf(acts: seq<ActorAction>): seq<Vec3>
  {
    if acts == [] then []
    else MovesOf(acts[..|acts| - 1]) + (if acts[|acts| - 1].kind == Move then [acts[|acts| - 1].target] else [])
  }

  /** The headings the Rotate actions turn to, in order. */
  function TurnsOf(acts: seq<ActorAction>): seq<int>
  {
    if acts == [] then []
    else TurnsOf(acts[..|acts| - 1]) + (if acts[|acts| - 1].kind == Rotate then [acts[|acts| - 1].target.x] else [])
  }

  /** The headings of the steps `1 .. n - 1` of `path`. */
  function StepDirs(t: Terrain, path: seq<int>, n: int): (ds: seq<int>)
    requires t.size > 0 && 1 <= n <= |path|
    ensures |ds| == n - 1 && forall i :: 0 <= i < n - 1 ==> ds[i] == StepDir(t, path, i + 1)
    decreases n
  {
    if n == 1 then [] else StepDirs(t, path, n - 1) + [StepDir(t, path, n - 1)]
  }

  /** Starting from heading `d0`, the headings of `ds` that differ from the one before them. */
  function Changes(d0: int, ds: seq<int>): seq<int>
  {
    if ds == [] then []
    else
      var prev := if |ds| == 1 then d0 else ds[|ds| - 2];
      Changes(d0, ds[..|ds| - 1]) + (if ds[|ds| - 1] != prev then [ds[|ds| - 1]] else [])
  }

  lemma MovesOfSnoc(acts: seq<ActorAction>, a: ActorAction)
    ensures MovesOf(acts + [a]) == MovesOf(acts) + (if a.kind == Move then [a.target] else [])
  {
    assert (acts + [a])[..|acts|] == acts;
  }

  lemma TurnsOfSnoc(acts: seq<ActorAction>, a: ActorAction)
    ensures TurnsOf(acts + [a]) == TurnsOf(acts) + (if a.kind == Rotate then [a.target.x] else [])
  {
    assert (acts + [a])[..|acts|] == acts;
  }

  /** Every Move action's target is among the move targets. */
  lemma {:induction false} MovesOfHas(acts: seq<ActorAction>)
    ensures forall a :: a in acts && a.kind == Move ==> a.target in MovesOf(acts)
  {
    if acts != [] {
      MovesOfHas(acts[..|acts| - 1]);
      assert acts == acts[..|acts| - 1] + [acts[|acts| - 1]];
    }
  }

  /** The cell with index `idx` at its terrain height, as a position. */
  function CellAt(t: Terrain, idx: int): Vec3
    requires t.Valid() && t.InRange(idx)
  {
    Vec3(t.GetX(idx), t.GetHeight(idx), t.GetY(idx))
  }

  /** Every action `BuildMoveOrder` emits is a fresh zero-delay Rotate or Move; a Rotate's target is a heading. */
  predicate Plain(a: ActorAction)
  {
    a.startDelay == 0 && a.endDelay == 0 && !a.hasBeenPerformed && (a.kind == Move || a.kind == Rotate) &&
    (a.kind == Rotate ==> IsDir(a.target.x))
  }

  /** One step of the for loop: the actions are extended by an optional Rotate and a Move. */
  lemma ActionsStep(t: Terrain, path: seq<int>, d0: int, n: int)
    requires t.Valid() && AllInRange(t, path) && 1 < n <= |path|
    ensures var (acts, pdir) := ActionsUpTo(t, path, d0, n - 1);
      var newDir := StepDir(t, path, n - 1);
      var turn := if newDir != pdir then [ActorAction(Vec3(newDir, 0, 0), 0, 0, Rotate, false)] else [];
      var step := ActorAction(CellAt(t, path[n - 1]), 0, 0, Move, false);
      ActionsUpTo(t, path, d0, n) == (acts + turn + [step], newDir)
  {
    CellRoundTrip(t, path[n - 1]);
  }

  /** Every Move of the actions for a path over the heightmap lands on a cell whose index lies in the heightmap. */
  lemma ActionsMovesInRange(t: Terrain, path: seq<int>, d0: int, n: int)
    requires t.Valid() && AllInRange(t, path) && 1 <= n <= |path|
    ensures forall a :: a in ActionsUpTo(t, path, d0, n).0 && a.kind == Move ==> t.InRange(t.GetIdxOf(a.target))
  {
    var acts := ActionsUpTo(t, path, d0, n).0;
    ActionsMoves(t, path, d0, n);
    MovesOfHas(acts);
    forall a | a in acts && a.kind == Move
      ensures t.InRange(t.GetIdxOf(a.target))
    {
      var k :| 0 <= k < n - 1 && MovesOf(acts)[k] == a.target;
      CellRoundTrip(t, path[k + 1]);
    }
  }

  /** The built actions are fresh zero-delay Rotates and Moves, each Rotate to a heading. */
  lemma {:induction false} ActionsPlain(t: Terrain, path: seq<int>, d0: int, n: int)
    requires t.Valid() && AllInRange(t, path) && 1 <= n <= |path|
    ensures forall a :: a in ActionsUpTo(t, path, d0, n).0 ==> Plain(a)
    decreases n
  {
    if n > 1 {
      ActionsPlain(t, path, d0, n - 1);
      ActionsStep(t, path, d0, n);
    }
  }

  /** One Move per step, onto that step's cell at its terrain height. */
  lemma {:induction false} ActionsMoves(t: Terrain, path: seq<int>, d0: int, n: int)
    requires t.Valid() && AllInRange(t, path) && 1 <= n <= |path|
    ensures var moves := MovesOf(ActionsUpTo(t, path, d0, n).0);
      |moves| == n - 1 &&
      forall k :: 0 <= k < n - 1 ==>
        moves[k] == CellAt(t, path[k + 1])
    decreases n
  {
    if n > 1 {
      ActionsMoves(t, path, d0, n - 1);
      ActionsStep(t, path, d0, n);
      var (acts, pdir) := ActionsUpTo(t, path, d0, n - 1);
      var newDir := StepDir(t, path, n - 1);
      var turn := if newDir != pdir then [ActorAction(Vec3(newDir, 0, 0), 0, 0, Rotate, false)] else [];
      var step := ActorAction(CellAt(t, path[n - 1]), 0, 0, Move, false);
      MovesOfSnoc(acts + turn, step);
      if turn != [] {
        MovesOfSnoc(acts, turn[0]);
      } else {
        assert acts + turn == acts;
      }
      var moves := MovesOf(ActionsUpTo(t, path, d0, n).0);
      assert moves == MovesOf(acts) + [step.target];
      forall k | 0 <= k < n - 1
        ensures moves[k] == CellAt(t, path[k + 1])
      {
        if k < n - 2 {
          assert moves[k] == MovesOf(acts)[k];
        }
      }
    }
  }

  /** One step of the for loop adds a turn exactly when its heading differs from `pdir`, and sets `pdir` to it. */
  lemma TurnsStep(t: Terrain, path: seq<int>, d0: int, n: int)
    requires t.Valid() && AllInRange(t, path) && 1 < n <= |path|
    ensures var (acts, pdir) := ActionsUpTo(t, path, d0, n - 1);
      var newDir := StepDir(t, path, n - 1);
      TurnsOf(ActionsUpTo(t, path, d0, n).0) == TurnsOf(acts) + (if newDir != pdir then [newDir] else []) &&
      ActionsUpTo(t, path, d0, n).1 == newDir
  {
    ActionsStep(t, path, d0, n);
    var (acts, pdir) := ActionsUpTo(t, path, d0, n - 1);
    var newDir := StepDir(t, path, n - 1);
    var turn := if newDir != pdir then [ActorAction(Vec3(newDir, 0, 0), 0, 0, Rotate, false)] else [];
    var step := ActorAction(CellAt(t, path[n - 1]), 0, 0, Move, false);
    TurnsOfSnoc(acts + turn, step);
    if turn != [] {
      TurnsOfSnoc(acts, turn[0]);
    } else {
      assert acts + turn == acts;
    }
  }

  /** The heading changes after `n` steps extend those after `n - 1` by the last step's heading, if it changed. */
  lemma ChangesStep(t: Terrain, path: seq<int>, d0: int, n: int)
    requires t.size > 0 && 1 < n <= |path|
    ensures var newDir := StepDir(t, path, n - 1);
      var prev := if n == 2 then d0 else StepDir(t, path, n - 2);
      Changes(d0, StepDirs(t, path, n)) == Changes(d0, StepDirs(t, path, n - 1)) + (if newDir != prev then [newDir] else [])
  {
    var ds := StepDirs(t, path, n);
    assert ds[..|ds| - 1] == StepDirs(t, path, n - 1);
  }

  /**
   * A Rotate exactly where a step's heading differs from the heading before
   * it (the actor's own heading before the first step); the loop's `pdir`
   * ends as the heading of the last step.
   */
  lemma {:induction false} ActionsTurns(t: Terrain, path: seq<int>, d0: int, n: int)
    requires t.Valid() && AllInRange(t, path) && 1 <= n <= |path|
    ensures var (acts, pdir) := ActionsUpTo(t, path, d0, n);
      TurnsOf(acts) == Changes(d0, StepDirs(t, path, n)) &&
      pdir == (if n == 1 then d0 else StepDir(t, path, n - 1))
    decreases n
  {
    if n > 1 {
      ActionsTurns(t, path, d0, n - 1);
      TurnsStep(t, path, d0, n);
      ChangesStep(t, path, d0, n);
    }
  }
}
