/** The terrain grid: cell addressing and height lookup. */
module Terrains {
  import opened Vectors

  datatype SurvivalGameConfig = SurvivalGameConfig(seed: int, mapSize: int)

  datatype TerrainChange = TerrainChange(idx: int, height: int)

  /**
   * `Terrain` (`map` is `heightMap`). The heightmaps are written only by `Generate` (not part of this
   * model) and never changed afterwards, so they are immutable values here.
   */
  datatype Terrain = Terrain(size: int, startMap: seq<int>, heightMap: seq<int>, changeSinceStart: seq<TerrainChange>)
  {
    ghost predicate Valid()
    {
      size > 0 && |heightMap| == size * size && |startMap| == size * size
    }

    /** An index into the heightmap. */
    predicate InRange(idx: int)
    {
      0 <= idx < |heightMap|
    }

    predicate InGrid(x: int, y: int)
    {
      0 <= x < size && 0 <= y < size
    }

    /** `GetIdx(x, y) = y * size + x` (row-major). */
    function GetIdx(x: int, y: int): int
    {
      y * size + x
    }

    /** `GetIdx(Vec3)`: the cell under `(pos.x, pos.z)`; the elevation `pos.y` plays no part. */
    function GetIdxOf(pos: Vec3): int
    {
      GetIdx(pos.x, pos.z)
    }

    /** `GetX(idx) = idx % size`, with C#'s truncating remainder. */
    function GetX(idx: int): int
      requires size > 0
    {
      CsRem(idx, size)
    }

    /** `GetY(idx) = idx / size`, with C#'s truncating division. */
    function GetY(idx: int): int
      requires size > 0
    {
      CsDiv(idx, size)
    }

    /** `GetHeight(idx)`: an array read, so the index must be in range. */
    function GetHeight(idx: int): int
      requires InRange(idx)
    {
      heightMap[idx]
    }

    /** `GetHeight(Vec3)`. */
    function GetHeightOf(pos: Vec3): int
      requires InRange(GetIdxOf(pos))
    {
      heightMap[GetIdxOf(pos)]
    }
  }

  /** C# integer division of `a` by a positive `n`: rounds toward zero. */
  function CsDiv(a: int, n: int): int
    requires n > 0
  {
    if a >= 0 then a / n else -((-a) / n)
  }

  /** C# remainder: takes the sign of the dividend. */
  function CsRem(a: int, n: int): (r: int)
    requires n > 0
    ensures a == CsDiv(a, n) * n + r
  {
    if a >= 0 then a % n else -((-a) % n)
  }

  /** The constructor: `size = config.mapSize` and both maps of `size * size` zeros. */
  function NewTerrain(config: SurvivalGameConfig): (t: Terrain)
    ensures t.size == config.mapSize && t.changeSinceStart == []
    ensures |t.heightMap| == |t.startMap| == config.mapSize * config.mapSize
    ensures forall i :: 0 <= i < |t.heightMap| ==> t.heightMap[i] == 0 && t.startMap[i] == 0
  {
    var n := config.mapSize * config.mapSize;
    var zeros := seq(if n < 0 then 0 else n, _ => 0);
    Terrain(config.mapSize, zeros, zeros, [])
  }

  /**
   * Stands in for `Generate`: both the start snapshot and the live map receive
   * the same heights, given here as an input.
   */
  function WithHeights(t: Terrain, heights: seq<int>): (r: Terrain)
    requires t.Valid() && |heights| == |t.heightMap|
    ensures r.Valid() && r.size == t.size && r.heightMap == r.startMap == heights
  {
    t.(startMap := heights, heightMap := heights)
  }

  /** `GetIdx(Vec3)` does not depend on the elevation. */
  lemma IndexIgnoresElevation(t: Terrain, pos: Vec3, h: int)
    ensures t.GetIdxOf(pos.(y := h)) == t.GetIdxOf(pos)
  {
  }

  /** Division and remainder by `n` recover `q` and `r` from `q * n + r`. */
  lemma DivModUnique(a: int, n: int, q: int, r: int)
    requires n > 0 && 0 <= r < n && a == q * n + r
    ensures a / n == q && a % n == r
  {
    var q', r' := a / n, a % n;
    assert a == q' * n + r';
    if q' < q {
      assert (q - q') * n == r' - r;
      assert (q - q') * n >= n by { MulAtLeast(q - q', n); }
    } else if q' > q {
      assert (q' - q) * n == r - r';
      assert (q' - q) * n >= n by { MulAtLeast(q' - q, n); }
    }
  }

  lemma MulAtLeast(k: int, n: int)
    requires k >= 1 && n > 0
    ensures k * n >= n
  {
  }

  /** Addressing round trip: a grid cell's index lies in the map, and `GetX`, `GetY` recover the cell. */
  lemma {:induction false} IndexRoundTrip(t: Terrain, x: int, y: int)
    requires t.Valid() && t.InGrid(x, y)
    ensures t.InRange(t.GetIdx(x, y))
    ensures t.GetX(t.GetIdx(x, y)) == x && t.GetY(t.GetIdx(x, y)) == y
  {
    var n := t.size;
    var i := y * n + x;
    DivModUnique(i, n, y, x);
    assert y * n <= (n - 1) * n by { MulMono(y, n - 1, n); }
    assert (n - 1) * n + n == n * n;
  }

  lemma MulMono(a: int, b: int, n: int)
    requires 0 <= a <= b && n >= 0
    ensures a * n <= b * n
  {
  }

  /** The converse round trip: an index in range is the index of the grid cell `(GetX, GetY)`. */
  lemma {:induction false} CellRoundTrip(t: Terrain, idx: int)
    requires t.Valid() && t.InRange(idx)
    ensures t.InGrid(t.GetX(idx), t.GetY(idx))
    ensures t.GetIdx(t.GetX(idx), t.GetY(idx)) == idx
  {
    var n := t.size;
    var q, r := idx / n, idx % n;
    assert t.GetX(idx) == r && t.GetY(idx) == q;
    QuotientBelow(idx, n);
    assert t.GetIdx(r, q) == q * n + r == idx;
  }

  /** An index below `n * n` has a row below `n`. */
  lemma QuotientBelow(idx: int, n: int)
    requires n > 0 && 0 <= idx < n * n
    ensures 0 <= idx / n < n && 0 <= idx % n < n && idx == (idx / n) * n + idx % n
  {
    var q := idx / n;
    if q >= n {
      MulMono(n, q, n);
    }
  }
}
