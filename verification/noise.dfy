/** One octave of 2D gradient noise at a real sample point: grid cell,
    corner offsets, corner hashes by double indirection into the permutation
    table, gradient dot products, eased bilinear interpolation. */
module Noise {
  import opened Gradient
  import opened Permutation

  /** What the corner lookups need of a table: a border size of at least 1,
      length twice the border size and every entry in [0, borderSize). */
  predicate TableInRange(pt: seq<int>, borderSize: int) {
    borderSize >= 1 && |pt| == 2 * borderSize && ValuesBelow(pt, borderSize)
  }

  /** A table built for a positive size is one the sampler can index safely. */
  lemma PermTableInRange(pt: seq<int>, borderSize: int)
    requires borderSize >= 1 && IsPermTable(pt, borderSize)
    ensures TableInRange(pt, borderSize)
  {
    PermTableValues(pt, borderSize);
  }

  /** Four values, one per corner of a grid cell. */
  datatype Corners<T> = Corners(topLeft: T, topRight: T, bottomLeft: T, bottomRight: T)

  /** The grid cell of a sample point (wrapped to the border size) and the
      point's fractional offsets inside it. */
  datatype Cell = Cell(gX: int, gY: int, xf: real, yf: real)

  /** The remainder by a positive divisor is fixed by any decomposition
      a == b * q + r with 0 <= r < b. */
  lemma ModUnique(a: int, b: int, q: int, r: int)
    requires b >= 1 && a == b * q + r && 0 <= r < b
    ensures a % b == r
  {
    var q', r' := a / b, a % b;
    assert b * (q - q') == r' - r;
    if q' < q {
      MulNonNegativeInt(b, q - q' - 1);
    } else if q < q' {
      MulNonNegativeInt(b, q' - q - 1);
    }
  }

  lemma MulNonNegativeInt(a: int, b: int)
    requires 0 <= a && 0 <= b
    ensures 0 <= a * b
  {
  }

  /** Subtracting the remainder leaves a multiple of the divisor. */
  lemma ModRemainderMultiple(a: int, b: int)
    requires b >= 1
    ensures 0 <= a % b < b
    ensures (a - a % b) % b == 0
  {
    ModUnique(a - a % b, b, a / b, 0);
  }

  /** Adding the divisor does not change the remainder. */
  lemma ModAddDivisor(a: int, b: int)
    requires b >= 1
    ensures (a + b) % b == a % b
  {
    ModUnique(a + b, b, a / b + 1, a % b);
  }

  function CellOf(x: real, y: real, borderSize: int): (c: Cell)
    requires borderSize >= 1
    ensures 0 <= c.gX < borderSize && 0 <= c.gY < borderSize
    ensures (x.Floor - c.gX) % borderSize == 0 && (y.Floor - c.gY) % borderSize == 0
    ensures 0.0 <= c.xf < 1.0 && 0.0 <= c.yf < 1.0
    ensures (x - c.xf).Floor as real == x - c.xf && (y - c.yf).Floor as real == y - c.yf
  {
    ModRemainderMultiple(x.Floor, borderSize);
    ModRemainderMultiple(y.Floor, borderSize);
    Cell(x.Floor % borderSize, y.Floor % borderSize, x - x.Floor as real, y - y.Floor as real)
  }

  /** The hash of lattice corner (i, j): the table entry at the table entry
      of column i, shifted by the row j. */
  function LatticeHash(pt: seq<int>, borderSize: int, i: int, j: int): (h: int)
    requires TableInRange(pt, borderSize)
    requires 0 <= i <= borderSize && 0 <= j <= borderSize
    ensures 0 <= h < borderSize
  {
    pt[pt[i] + j]
  }

  /** Every index the sampler uses is inside the table: the column gX + 1 may
      reach borderSize and the row index pt[..] + gY + 1 may reach
      2 * borderSize - 1, both below the doubled length. */
  lemma LookupsInBounds(pt: seq<int>, borderSize: int, gX: int, gY: int)
    requires TableInRange(pt, borderSize)
    requires 0 <= gX < borderSize && 0 <= gY < borderSize
    ensures 0 <= gX + 1 <= borderSize < |pt|
    ensures 0 <= pt[gX] + gY && pt[gX] + gY + 1 <= 2 * borderSize - 1
    ensures 0 <= pt[gX + 1] + gY && pt[gX + 1] + gY + 1 <= 2 * borderSize - 1
  {
  }

  /** With the duplicated second half, the lattice hash depends only on the
      corner modulo the border size: a corner on the far edge of the last
      cell gets the hash of the matching corner on the near edge of the first
      cell, so the noise wraps around seamlessly. */
  lemma LatticeHashWraps(pt: seq<int>, borderSize: int, i: int, j: int)
    requires borderSize >= 1 && IsPermTable(pt, borderSize)
    requires 0 <= i <= borderSize && 0 <= j <= borderSize
    ensures TableInRange(pt, borderSize)
    ensures LatticeHash(pt, borderSize, i, j) == LatticeHash(pt, borderSize, i % borderSize, j % borderSize)
  {
    PermTableValues(pt, borderSize);
    var i' := i % borderSize;
    var j' := j % borderSize;
    if i < borderSize { ModUnique(i, borderSize, 0, i); } else { ModUnique(i, borderSize, 1, 0); }
    if j < borderSize { ModUnique(j, borderSize, 0, j); } else { ModUnique(j, borderSize, 1, 0); }
    assert pt[i] == pt[i'] by {
      if i == borderSize {
        assert pt[borderSize + 0] == pt[0];
      }
    }
    var k := pt[i'];
    assert 0 <= k < borderSize;
    if j == borderSize {
      assert j' == 0;
      assert pt[borderSize + k] == pt[k];
      assert pt[k + j] == pt[k + j'];
    }
  }

  /** The four corner hashes of cell (gX, gY). */
  function CornerHashes(pt: seq<int>, borderSize: int, gX: int, gY: int): (h: Corners<int>)
    requires TableInRange(pt, borderSize)
    requires 0 <= gX < borderSize && 0 <= gY < borderSize
    ensures 0 <= h.topLeft < borderSize && 0 <= h.topRight < borderSize
    ensures 0 <= h.bottomLeft < borderSize && 0 <= h.bottomRight < borderSize
  {
    Corners(LatticeHash(pt, borderSize, gX, gY + 1),
            LatticeHash(pt, borderSize, gX + 1, gY + 1),
            LatticeHash(pt, borderSize, gX, gY),
            LatticeHash(pt, borderSize, gX + 1, gY))
  }

  /** The vectors from each corner of the cell to the sample point. */
  function CornerOffsets(xf: real, yf: real): Corners<Vector> {
    Corners(Vector(xf, yf - 1.0), Vector(xf - 1.0, yf - 1.0), Vector(xf, yf), Vector(xf - 1.0, yf))
  }

  /** Each corner's gradient, dotted with that corner's offset. */
  function CornerDots(h: Corners<int>, o: Corners<Vector>): Corners<real> {
    Corners(Dot(ConstantVector(h.topLeft), o.topLeft),
            Dot(ConstantVector(h.topRight), o.topRight),
            Dot(ConstantVector(h.bottomLeft), o.bottomLeft),
            Dot(ConstantVector(h.bottomRight), o.bottomRight))
  }

  /** The four corner dot products for the sample point (x, y). */
  function NoiseCorners(x: real, y: real, pt: seq<int>, borderSize: int): Corners<real>
    requires TableInRange(pt, borderSize)
  {
    var c := CellOf(x, y, borderSize);
    CornerDots(CornerHashes(pt, borderSize, c.gX, c.gY), CornerOffsets(c.xf, c.yf))
  }

  /** One octave of noise: blend bottom and top along the eased y offset on
      each side, then the two sides along the eased x offset. */
  function Noise2D(x: real, y: real, pt: seq<int>, borderSize: int): real
    requires TableInRange(pt, borderSize)
  {
    var c := CellOf(x, y, borderSize);
    var d := NoiseCorners(x, y, pt, borderSize);
    var u := Fade(c.xf);
    var v := Fade(c.yf);
    Lerp(u, Lerp(v, d.bottomLeft, d.topLeft), Lerp(v, d.bottomRight, d.topRight))
  }

  /** The sampler as the renderer calls it: noise at a point, with the
      table and the border size fixed. */
  function Sampler(pt: seq<int>, borderSize: int): (real, real) -> real
    requires TableInRange(pt, borderSize)
  {
    (sx: real, sy: real) => Noise2D(sx, sy, pt, borderSize)
  }

  function MinOf(d: Corners<real>): real {
    Min(Min(d.topLeft, d.topRight), Min(d.bottomLeft, d.bottomRight))
  }

  function MaxOf(d: Corners<real>): real {
    Max(Max(d.topLeft, d.topRight), Max(d.bottomLeft, d.bottomRight))
  }

  /** At a lattice point both offsets are 0, both eased weights are 0, the
      blend returns the bottom-left dot product, and the bottom-left offset is
      the zero vector: the noise is exactly 0. */
  lemma NoiseAtLatticePoint(x: real, y: real, pt: seq<int>, borderSize: int)
    requires TableInRange(pt, borderSize)
    requires x.Floor as real == x && y.Floor as real == y
    ensures Noise2D(x, y, pt, borderSize) == 0.0
  {
    var c := CellOf(x, y, borderSize);
    assert c.xf == 0.0 && c.yf == 0.0;
    var h := CornerHashes(pt, borderSize, c.gX, c.gY);
    DotDiagonalBound(ConstantVector(h.bottomLeft), Vector(0.0, 0.0));
  }

  /** The noise lies between the smallest and the largest corner dot product. */
  lemma NoiseBetweenCorners(x: real, y: real, pt: seq<int>, borderSize: int)
    requires TableInRange(pt, borderSize)
    ensures MinOf(NoiseCorners(x, y, pt, borderSize)) <= Noise2D(x, y, pt, borderSize)
    ensures Noise2D(x, y, pt, borderSize) <= MaxOf(NoiseCorners(x, y, pt, borderSize))
  {
    var c := CellOf(x, y, borderSize);
    var d := NoiseCorners(x, y, pt, borderSize);
    var u := Fade(c.xf);
    var v := Fade(c.yf);
    FadeRange(c.xf);
    FadeRange(c.yf);
    LerpBetween(v, d.bottomLeft, d.topLeft);
    LerpBetween(v, d.bottomRight, d.topRight);
    LerpBetween(u, Lerp(v, d.bottomLeft, d.topLeft), Lerp(v, d.bottomRight, d.topRight));
  }

  /** Every corner dot product is at most 2 in magnitude, since each
      gradient is a unit diagonal and each offset component lies in (-1, 1). */
  lemma CornerDotsBounded(h: Corners<int>, xf: real, yf: real)
    requires 0.0 <= xf < 1.0 && 0.0 <= yf < 1.0
    ensures -2.0 <= MinOf(CornerDots(h, CornerOffsets(xf, yf)))
    ensures MaxOf(CornerDots(h, CornerOffsets(xf, yf))) <= 2.0
  {
    var o := CornerOffsets(xf, yf);
    OffsetDotBounded(h.topLeft, o.topLeft);
    OffsetDotBounded(h.topRight, o.topRight);
    OffsetDotBounded(h.bottomLeft, o.bottomLeft);
    OffsetDotBounded(h.bottomRight, o.bottomRight);
  }

  lemma OffsetDotBounded(hash: int, o: Vector)
    requires -1.0 <= o.x <= 1.0 && -1.0 <= o.y <= 1.0
    ensures -2.0 <= Dot(ConstantVector(hash), o) <= 2.0
  {
    DotDiagonalBound(ConstantVector(hash), o);
  }

  /** One octave of noise lies in [-2, 2]. */
  lemma NoiseBounded(x: real, y: real, pt: seq<int>, borderSize: int)
    requires TableInRange(pt, borderSize)
    ensures -2.0 <= Noise2D(x, y, pt, borderSize) <= 2.0
  {
    NoiseBetweenCorners(x, y, pt, borderSize);
    var c := CellOf(x, y, borderSize);
    CornerDotsBounded(CornerHashes(pt, borderSize, c.gX, c.gY), c.xf, c.yf);
  }

  /** Every value of the sampler lies in [-2, 2]. */
  lemma SamplerBounded(pt: seq<int>, borderSize: int)
    requires TableInRange(pt, borderSize)
    ensures forall sx: real, sy: real :: -2.0 <= Sampler(pt, borderSize)(sx, sy) <= 2.0
  {
    forall sx: real, sy: real
      ensures -2.0 <= Sampler(pt, borderSize)(sx, sy) <= 2.0
    {
      NoiseBounded(sx, sy, pt, borderSize);
    }
  }

  /** Shifting a real by an integer shifts its floor by that integer. */
  lemma FloorShift(x: real, k: int)
    ensures (x + k as real).Floor == x.Floor + k
  {
    var f := x.Floor + k;
    assert f as real <= x + k as real < f as real + 1.0;
  }

  /** The noise tiles the plane with period borderSize in both directions. */
  lemma NoisePeriodic(x: real, y: real, pt: seq<int>, borderSize: int)
    requires TableInRange(pt, borderSize)
    ensures Noise2D(x + borderSize as real, y, pt, borderSize) == Noise2D(x, y, pt, borderSize)
    ensures Noise2D(x, y + borderSize as real, pt, borderSize) == Noise2D(x, y, pt, borderSize)
  {
    FloorShift(x, borderSize);
    FloorShift(y, borderSize);
    ModAddDivisor(x.Floor, borderSize);
    ModAddDivisor(y.Floor, borderSize);
    assert CellOf(x + borderSize as real, y, borderSize) == CellOf(x, y, borderSize);
    assert CellOf(x, y + borderSize as real, borderSize) == CellOf(x, y, borderSize);
  }
}
