/** Integer cell coordinates and the four headings. */
module Vectors {

  /** `Vec3`: `x` and `z` address the grid, `y` is an elevation. */
  datatype Vec3 = Vec3(x: int, y: int, z: int)

  /** `operator +`: component-wise sum (the `==` and `!=` operators are datatype equality). */
  function Add(a: Vec3, b: Vec3): Vec3
  {
    Vec3(a.x + b.x, a.y + b.y, a.z + b.z)
  }

  predicate IsDir(d: int) { 0 <= d < 4 }

  /** A unit step along `x` or `z` (a 4-neighbour offset). */
  predicate IsUnitStep(dx: int, dz: int)
  {
    (dx == 0 && (dz == 1 || dz == -1)) || (dz == 0 && (dx == 1 || dx == -1))
  }

  /** `FromDir`: the `dirLookup` table, heading 0 = +z, 1 = +x, 2 = -z, 3 = -x. */
  function FromDir(d: int): (v: Vec3)
    requires IsDir(d)
    ensures v.y == 0 && IsUnitStep(v.x, v.z)
    ensures ToDir(v.x, v.z) == d
  {
    [Vec3(0, 0, 1), Vec3(1, 0, 0), Vec3(0, 0, -1), Vec3(-1, 0, 0)][d]
  }

  /** `ToDir`: the heading of an offset, checked in the order +z, +x, -z, otherwise -x. */
  function ToDir(x: int, z: int): (d: int)
    ensures IsDir(d)
    ensures d == 0 <==> z > 0
    ensures d == 2 <==> z < 0 && x <= 0
  {
    if z > 0 then 0
    else if x > 0 then 1
    else if z < 0 then 2
    else 3
  }

  /**
   * The cell ahead, `p + FromDir(d)`: it keeps the elevation of `p`, is a
   * 4-neighbour of `p`, and lies in heading `d` from it.
   */
  lemma AheadOfHeading(p: Vec3, d: int)
    requires IsDir(d)
    ensures var q := Add(p, FromDir(d));
      q.y == p.y && IsUnitStep(q.x - p.x, q.z - p.z) && ToDir(q.x - p.x, q.z - p.z) == d
  {
  }

  /** On a unit step, `ToDir` inverts `FromDir`. */
  lemma ToDirOfUnitStep(dx: int, dz: int)
    requires IsUnitStep(dx, dz)
    ensures FromDir(ToDir(dx, dz)) == Vec3(dx, 0, dz)
  {
  }
}
