/** The per-pixel part of the renderer: octaves of noise summed with halving
    amplitude ("motion") and doubling frequency, normalised, scaled to 0..255,
    rounded half to even, and mapped to a colour; and the loop over all
    pixels of a square canvas that shares one permutation table. */
module Render {
  import opened Permutation
  import opened Noise

  /** The amplitude of octave k: 1 for the first octave, halved after each. */
  function Motion(k: nat): (m: real)
    ensures 0.0 < m <= 1.0
  {
    if k == 0 then 1.0 else Motion(k - 1) * 0.5
  }

  /** The frequency of octave k: 0.025 for the first octave, doubled after each. */
  function Frequency(k: nat): (f: real)
    ensures f >= 0.025
  {
    if k == 0 then 0.025 else Frequency(k - 1) * 2.0
  }

  /** The amplitude halves exactly as the frequency doubles: their product
      stays at the base frequency. */
  lemma {:induction false} MotionFrequency(k: nat)
    ensures Motion(k) * Frequency(k) == 0.025
  {
    if k > 0 {
      MotionFrequency(k - 1);
      assert Motion(k) * Frequency(k) == (Motion(k - 1) * 0.5) * (Frequency(k - 1) * 2.0);
    }
  }

  /** The number of octaves a count stands for: a negative count gives none. */
  function Octaves(octave: int): nat {
    if octave < 0 then 0 else octave
  }

  /** The noise-space coordinate of pixel coordinate c at frequency f. */
  function Scaled(c: int, f: real): real {
    c as real * f
  }

  /** A sampler whose values all lie in [-2, 2]. */
  ghost predicate BoundedSampler(noise: (real, real) -> real) {
    forall sx: real, sy: real :: -2.0 <= noise(sx, sy) <= 2.0
  }

  /** The weighted sum of the first k octaves of noise at pixel (x, y):
      octave i samples at (x, y) scaled by Frequency(i), weighted by Motion(i). */
  function OctaveSum(x: int, y: int, noise: (real, real) -> real, k: nat): real {
    if k == 0 then 0.0
    else
      OctaveSum(x, y, noise, k - 1)
      + Motion(k - 1) * noise(Scaled(x, Frequency(k - 1)), Scaled(y, Frequency(k - 1)))
  }

  lemma ScaledBound(m: real, v: real)
    requires 0.0 < m && -2.0 <= v <= 2.0
    ensures -2.0 * m <= m * v <= 2.0 * m
  {
    assert m * v + 2.0 * m == m * (v + 2.0);
    assert 2.0 * m - m * v == m * (2.0 - v);
  }

  /** Adding octave k changes the sum by at most twice that octave's
      amplitude, when one octave of noise lies in [-2, 2]. */
  lemma OctaveStep(x: int, y: int, noise: (real, real) -> real, k: nat)
    requires BoundedSampler(noise)
    ensures -2.0 * Motion(k) <= OctaveSum(x, y, noise, k + 1) - OctaveSum(x, y, noise, k) <= 2.0 * Motion(k)
  {
    var m := Motion(k);
    var v := noise(Scaled(x, Frequency(k)), Scaled(y, Frequency(k)));
    assert -2.0 <= v <= 2.0;
    ScaledBound(m, v);
    assert OctaveSum(x, y, noise, k + 1) == OctaveSum(x, y, noise, k) + m * v;
  }

  /** The sum of k octaves lies within 4 - 4 * 2^-k of zero, so below 4 in
      magnitude for any number of octaves. */
  lemma {:induction false} OctaveSumBounded(x: int, y: int, noise: (real, real) -> real, k: nat)
    requires BoundedSampler(noise)
    ensures -(4.0 - 4.0 * Motion(k)) <= OctaveSum(x, y, noise, k) <= 4.0 - 4.0 * Motion(k)
  {
    if k > 0 {
      OctaveSumBounded(x, y, noise, k - 1);
      OctaveStep(x, y, noise, k - 1);
    }
  }

  /** The sampler of module Noise satisfies the bound, so both lemmas
      above apply to the renderer's sum. */
  lemma PixelSumBounded(x: int, y: int, pt: seq<int>, borderSize: int, k: nat)
    requires TableInRange(pt, borderSize)
    ensures -4.0 < OctaveSum(x, y, Sampler(pt, borderSize), k) < 4.0
  {
    SamplerBounded(pt, borderSize);
    OctaveSumBounded(x, y, Sampler(pt, borderSize), k);
  }

  /** Rounding to the nearest integer, ties to the even one. */
  function RoundHalfEven(r: real): (n: int)
    ensures -0.5 <= n as real - r <= 0.5
    ensures (n as real - r == 0.5 || r - n as real == 0.5) ==> n % 2 == 0
  {
    var f := r.Floor;
    var d := r - f as real;
    if d < 0.5 then f
    else if d > 0.5 then f + 1
    else if f % 2 == 0 then f
    else f + 1
  }

  /** The two properties of RoundHalfEven determine its result. */
  lemma RoundHalfEvenUnique(r: real, n: int)
    requires -0.5 <= n as real - r <= 0.5
    requires (n as real - r == 0.5 || r - n as real == 0.5) ==> n % 2 == 0
    ensures n == RoundHalfEven(r)
  {
  }

  /** The normalised octave sum, (sum + 1) / 2, scaled to 0..255 and rounded.
      The sum is not clamped: only a sum in [-1, 1] gives an intensity in 0..255. */
  function Intensity(sum: real): (n: int)
    ensures -1.0 <= sum <= 1.0 ==> 0 <= n <= 255
    ensures sum == 0.0 ==> n == 128
  {
    RoundHalfEven((sum + 1.0) * 0.5 * 255.0)
  }

  datatype Rgb = Rgb(red: int, green: int, blue: int)

  /** The colour of an intensity, with the thresholds 0.5 and 0.9 as written.
      As the intensity is an integer, the middle band is never taken: the
      colour is blue for intensities up to 0 and grey from 1 on. */
  function Colour(n: int): (c: Rgb)
    ensures n <= 0 ==> c == Rgb(0, 0, 2 * n)
    ensures n >= 1 ==> c == Rgb(n, n, n)
  {
    if n as real < 0.5 then Rgb(0, 0, 2 * n)
    else if n as real < 0.9 then Rgb(0, n, RoundHalfEven(n as real * 0.5))
    else Rgb(n, n, n)
  }

  /** The colour the renderer gives pixel (x, y). */
  function PixelColourOf(x: int, y: int, pt: seq<int>, borderSize: int, octave: int): Rgb
    requires TableInRange(pt, borderSize)
  {
    Colour(Intensity(OctaveSum(x, y, Sampler(pt, borderSize), Octaves(octave))))
  }

  /** The octave loop for one pixel followed by normalisation and rounding;
      noise is the sampler with the permutation table and border size fixed. */
  method PixelIntensity(x: int, y: int, noise: (real, real) -> real, octave: int) returns (n: int)
    ensures n == Intensity(OctaveSum(x, y, noise, Octaves(octave)))
  {
    var sum := 0.0;
    var frequency := 0.025;
    var motion := 1.0;
    var k := 0;
    while k < octave
      invariant 0 <= k <= Octaves(octave)
      invariant sum == OctaveSum(x, y, noise, k)
      invariant motion == Motion(k) && frequency == Frequency(k)
    {
      sum := sum + motion * noise(Scaled(x, frequency), Scaled(y, frequency));
      motion := motion * 0.5;
      frequency := frequency * 2.0;
      k := k + 1;
    }
    sum := sum + 1.0;
    sum := sum * 0.5;
    n := RoundHalfEven(sum * 255.0);
  }

  /** One pixel: its intensity, then the colour branch. The branch is written
      out as the renderer's if/elif chain; the ensures proves it agrees with
      Colour, which states what each band gives. */
  method PixelColour(x: int, y: int, pt: seq<int>, borderSize: int, octave: int) returns (c: Rgb)
    requires TableInRange(pt, borderSize)
    ensures c == PixelColourOf(x, y, pt, borderSize, octave)
  {
    var n := PixelIntensity(x, y, Sampler(pt, borderSize), octave);
    if n as real < 0.5 {
      c := Rgb(0, 0, 2 * n);
    } else if n as real < 0.9 {
      c := Rgb(0, n, RoundHalfEven(n as real * 0.5));
    } else {
      c := Rgb(n, n, n);
    }
  }

  /** With no octaves the sum stays 0, the scaled value is 127.5, which
      rounds to the even 128, and the pixel is mid grey. */
  lemma NoOctavesIsGrey(x: int, y: int, pt: seq<int>, borderSize: int, octave: int)
    requires TableInRange(pt, borderSize)
    requires octave <= 0
    ensures PixelColourOf(x, y, pt, borderSize, octave) == Rgb(128, 128, 128)
  {
  }

  /** One row of the canvas: the colour of every pixel (x, y) with x < width. */
  method NoiseRow(y: int, width: nat, pt: seq<int>, borderSize: int, octave: int) returns (row: seq<Rgb>)
    requires TableInRange(pt, borderSize)
    ensures |row| == width
    ensures forall x :: 0 <= x < width ==> row[x] == PixelColourOf(x, y, pt, borderSize, octave)
  {
    row := [];
    for x := 0 to width
      invariant |row| == x
      invariant forall i :: 0 <= i < x ==> row[i] == PixelColourOf(i, y, pt, borderSize, octave)
    {
      var c := PixelColour(x, y, pt, borderSize, octave);
      row := row + [c];
    }
  }

  /** Noise over a square canvas of the given size: one permutation table
      sized to the height, then every pixel row by row. image[y][x] is the
      colour of pixel (x, y); pt is the table that was built. */
  method ApplyNoise(width: nat, height: nat, octave: int, draws: seq<nat>)
    returns (image: seq<seq<Rgb>>, ghost pt: seq<int>)
    ensures IsPermTable(pt, height)
    ensures |image| == height
    ensures forall y :: 0 <= y < height ==> |image[y]| == width
    ensures height >= 1 ==> TableInRange(pt, height)
    ensures forall y, x :: 0 <= y < height && 0 <= x < width ==>
              height >= 1 && image[y][x] == PixelColourOf(x, y, pt, height, octave)
    ensures octave <= 0 ==>
              forall y, x :: 0 <= y < height && 0 <= x < width ==> image[y][x] == Rgb(128, 128, 128)
  {
    // The pixel equations are carried through as they are; the body of the
    // noise function is not needed here and only slows the proof down.
    hide Noise2D;
    var table := PermTable(height, draws);
    pt := table;
    image := [];
    if height >= 1 {
      PermTableInRange(table, height);
      for y := 0 to height
        invariant |image| == y
        invariant forall j :: 0 <= j < y ==> |image[j]| == width
        invariant forall j, i :: 0 <= j < y && 0 <= i < width ==>
                    image[j][i] == PixelColourOf(i, j, table, height, octave)
      {
        var row := NoiseRow(y, width, table, height, octave);
        image := image + [row];
      }
    }
    if octave <= 0 {
      NoOctavesImageIsGrey(image, pt, width, height, octave);
    }
  }

  /** With no octaves every pixel of a rendered canvas is mid grey. */
  lemma NoOctavesImageIsGrey(image: seq<seq<Rgb>>, pt: seq<int>, width: nat, height: nat, octave: int)
    requires octave <= 0
    requires |image| == height
    requires forall y :: 0 <= y < height ==> |image[y]| == width
    requires height >= 1 ==> TableInRange(pt, height)
    requires forall y, x :: 0 <= y < height && 0 <= x < width ==>
               height >= 1 && image[y][x] == PixelColourOf(x, y, pt, height, octave)
    ensures forall y, x :: 0 <= y < height && 0 <= x < width ==> image[y][x] == Rgb(128, 128, 128)
  {
    forall y, x | 0 <= y < height && 0 <= x < width
      ensures image[y][x] == Rgb(128, 128, 128)
    {
      assert image[y][x] == PixelColourOf(x, y, pt, height, octave);
      NoOctavesIsGrey(x, y, pt, height, octave);
    }
  }
}
