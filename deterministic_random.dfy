/**
 * The game's deterministic random number generator: two 32-bit words, each
 * advanced by its own multiply-with-carry recurrence, combined into one
 * 32-bit output and reduced into a range.
 */
module DeterministicRandom {

  const TWO16: int := 0x1_0000
  const TWO31: int := 0x8000_0000
  const TWO32: int := 0x1_0000_0000

  type uint32 = x: int | 0 <= x < TWO32

  /** An int32 value (C# `int`). */
  predicate IsInt32(x: int) { -TWO31 <= x < TWO31 }

  /** Two's-complement reinterpretation of an integer as a C# `int` (unchecked cast / wrap-around). */
  function ToInt32(x: int): (r: int)
    ensures IsInt32(r)
    ensures (r - x) % TWO32 == 0
    ensures IsInt32(x) ==> r == x
  {
    var u := x % TWO32;
    if u < TWO31 then u else u - TWO32
  }

  /** The generator's two words (`m_w`, `m_z`). */
  datatype RngState = RngState(w: uint32, z: uint32)

  /** `m_z = 36969 * (m_z & 65535) + (m_z >> 16)`: the result never needs the wrap-around. */
  function NextZ(z: uint32): uint32
  {
    36969 * (z % TWO16) + z / TWO16
  }

  /** `m_w = 18000 * (m_w & 65535) + (m_w >> 16)`. */
  function NextW(w: uint32): uint32
  {
    18000 * (w % TWO16) + w / TWO16
  }

  /** The state after one call of `GetValue`. */
  function Advance(s: RngState): RngState
  {
    RngState(NextW(s.w), NextZ(s.z))
  }

  /** `(m_z << 16) + m_w` on `uint`: the shift drops the high half of `z`, the sum wraps. */
  function Output(s: RngState): uint32
  {
    (s.z * TWO16 + s.w) % TWO32
  }

  /** `seed` reinterpreted as `uint` (the `(uint)config.seed` cast). */
  function SeedOf(seed: int): uint32
  {
    seed % TWO32
  }

  /** The constructor: both words take the seed, then one burn-in step. */
  function Seeded(seed: uint32): RngState
  {
    Advance(RngState(seed, seed))
  }

  /** What `Range(min, max)` may be called with: its `uint` divisor is non-zero. */
  predicate RangeArgs(min: int, max: int)
  {
    IsInt32(min) && IsInt32(max) && ToInt32(max - min) != 0
  }

  /**
   * `Range`'s reduction of a generated value `v`, as written:
   * `(int)(v % (uint)(max - min)) - min`. For `min == 0` this lies in `[0, max)`;
   * for any other `min` it is shifted by `-min` rather than `+min`.
   */
  function Reduce(v: uint32, min: int, max: int): (r: int)
    requires RangeArgs(min, max)
    ensures IsInt32(r)
    ensures min == 0 && 0 < max ==> 0 <= r < max
  {
    var d := (max - min) % TWO32;
    ToInt32(ToInt32(v % d) - min)
  }

  /** One `Range(min, max)` call from state `s`: the new state and the value returned. */
  function Draw(s: RngState, min: int, max: int): (RngState, int)
    requires RangeArgs(min, max)
  {
    var s' := Advance(s);
    (s', Reduce(Output(s'), min, max))
  }

  /** `n` calls of `GetValue`. */
  function AdvanceN(s: RngState, n: nat): RngState
    decreases n
  {
    if n == 0 then s else AdvanceN(Advance(s), n - 1)
  }

  /**
   * `Range(min, max)` with `0 == min < max` returns a value in `[0, max)`;
   * this is the only form the modelled code calls.
   */
  lemma DrawFromZero(s: RngState, max: int)
    requires 0 < max < TWO31
    ensures RangeArgs(0, max)
    ensures 0 <= Draw(s, 0, max).1 < max
    ensures Draw(s, 0, max).1 == Output(Advance(s)) % max
  {
  }

  /**
   * With a non-zero `min` the result can fall below `min`: a generator seeded
   * with 0 stays at the all-zero state, so its first `Range(1, 10000)` returns -1.
   */
  lemma RangeBelowMinimum()
    ensures RangeArgs(1, 10000)
    ensures Draw(Seeded(0), 1, 10000).1 == -1
  {
    assert Seeded(0) == RngState(0, 0);
    assert Advance(RngState(0, 0)) == RngState(0, 0);
  }

  /**
   * The reduction `Range` evidently intends, `(int)(v % (uint)(max - min)) + min`:
   * always in `[min, max)`.
   */
  function ReduceIntended(v: uint32, min: int, max: int): (r: int)
    requires IsInt32(min) && IsInt32(max) && min < max && max - min <= TWO31
    ensures min <= r < max
  {
    min + v % (max - min)
  }

  /** For `min == 0`, the only form the modelled code calls, the reduction as written is the intended one. */
  lemma ReduceAgreesFromZero(v: uint32, max: int)
    requires 0 < max < TWO31
    ensures RangeArgs(0, max) && Reduce(v, 0, max) == ReduceIntended(v, 0, max)
  {
  }

  /**
   * `Terrain.Generate` draws its two noise offsets with `Range(1, 10000)`.
   * As written every such draw is 2 below the intended one, in `[-1, 9997]`
   * instead of `[1, 9999]`.
   */
  lemma TerrainOffsetShifted(v: uint32)
    ensures RangeArgs(1, 10000)
    ensures Reduce(v, 1, 10000) == ReduceIntended(v, 1, 10000) - 2
    ensures -1 <= Reduce(v, 1, 10000) <= 9997
  {
  }

  /** `DeterministicRandom`: the mutable generator object. */
  class Random {
    var w: uint32
    var z: uint32

    function State(): RngState
      reads this
    {
      RngState(w, z)
    }

    constructor (seed: uint32)
      ensures State() == Seeded(seed)
    {
      w := seed;
      z := seed;
      new;
      var _ := GetValue();
    }

    method GetValue() returns (v: uint32)
      modifies this
      ensures State() == Advance(old(State()))
      ensures v == Output(State())
    {
      z := 36969 * (z % TWO16) + z / TWO16;
      w := 18000 * (w % TWO16) + w / TWO16;
      v := (z * TWO16 + w) % TWO32;
    }

    method Range(min: int, max: int) returns (r: int)
      requires RangeArgs(min, max)
      modifies this
      ensures (State(), r) == Draw(old(State()), min, max)
    {
      var d := (max - min) % TWO32;
      var v := GetValue();
      r := ToInt32(ToInt32(v % d) - min);
    }
  }
}
