# PerlinNoise in Dafny

A verified model of the noise core of the PerlinNoise script (`main.py`), which
paints a square canvas with 2D gradient noise (Perlin-style) summed over
several octaves.

The model has four modules, one per part of the script:

- `Permutation` (`permutation.dfy`): `perm_table`. It builds the identity list
  `0..size-1`, shuffles it, then appends a copy of each of the first `size`
  entries. `random.shuffle` is modelled as a Fisher–Yates pass whose choices
  come from a `draws` parameter; its contract says only that the result is a
  permutation of its input. The table is a local list that grows, so it is a
  `seq` that the method reassigns.
- `Gradient` (`gradient.dfy`): `fade`, `get_constant_vect`, `dot_product_2d`
  and `linear_interpolation`, over exact `real`s.
- `Noise` (`noise.dfy`): `noise_2d`. This covers the grid cell (floor modulo
  the border size), the fractional offsets, the four corner vectors, the
  corner hashes `pt[pt[gX] + gY + 1]` and so on, the gradient dot products,
  and the eased bilinear blend. The blend is split into small functions
  (`CellOf`, `LatticeHash`, `CornerHashes`, `CornerOffsets`, `CornerDots`) so
  that lemmas can name the intermediate values. `Sampler` is `noise_2d` with
  `pt` and `border_size` fixed, as the renderer calls it.
- `Render` (`render.dfy`): the body of `apply_noise`.
  - The per-pixel octave loop is the method `PixelIntensity`. It keeps the
    accumulators `n` (here `sum`), `motion` and `frequency`, and is proved
    against the function `OctaveSum`.
  - Then comes the normalisation `(n + 1) * 0.5`, scaling by 255 and Python's
    `round`, which rounds halves to even (`RoundHalfEven`).
  - The colour branch is `Colour` and `PixelColour`.
  - The loop over all pixels is `ApplyNoise`. It returns `image[y][x]` for
    pixel `(x, y)` instead of writing into a PIL image.

Where the code and the usual description of this algorithm differ, the model
follows the code:

- `perm_table` with `size <= 0` returns the empty list. No error is raised.
- The octave sum is not clamped before it is turned into a colour. So only a
  sum in `[-1, 1]` is guaranteed an intensity in `0..255` (`Intensity`).
- The colour thresholds `0.5` and `0.9` are compared with the already rounded
  integer intensity. The middle band (`(0, n, round(n/2))`) can therefore
  never be taken: `Colour` proves that the result is `(0, 0, 2n)` for `n <= 0`
  and `(n, n, n)` for `n >= 1`.
- The sampler is proved to lie in `[-2, 2]`. The comment on `noise_2d` claims
  `[-1, 1]`, which is not proved here.

## Model

| member | source | states |
|---|---|---|
| `Permutation.Shuffle` | main.py:28 | the shuffled list has the same length and the same multiset of elements as the input, whatever the random draws |
| `Permutation.PermTable` | main.py:26-33 | the table has length 2·size (size 0 when size ≤ 0), its first half is a permutation of 0..size-1, and entry size+i equals entry i for every i < size |
| `Permutation.IsPermTable` | main.py:26-33 | definition of what perm_table returns: length 2·size, first half a permutation of 0..size-1 (as multisets), entry size+i equal to entry i |
| `Permutation.PermTableValues` | main.py:27-31 | every entry of a permutation table lies in [0, size), and every value of [0, size) occurs in the first half |
| `Gradient.Fade` | main.py:17-22 | fade(1/2) = 1/2, as the comment on the function states; the ends of the unit interval are fixed too, fade(0) = 0 and fade(1) = 1 |
| `Gradient.FadeSymmetric` | main.py:17-22 | fade(1 − t) = 1 − fade(t): the curve is point-symmetric about (1/2, 1/2) |
| `Gradient.FadeTowardEnds` | main.py:18-20 | on [0, 1], an input t ≤ 1/2 gives fade(t) ≤ t (closer to 0) and an input t ≥ 1/2 gives fade(t) ≥ t (closer to 1) |
| `Gradient.FadeNonNegative` | main.py:17-22 | fade(t) ≥ 0 for every t ≥ 0 |
| `Gradient.FadeRange` | main.py:17-22 | fade maps [0, 1] into [0, 1] |
| `Gradient.ConstantVector` | main.py:37-48 | the gradient is one of (±1, ±1); its y component is +1 exactly when value % 4 < 2, and x = y exactly when value % 4 is 0 or 2, which fixes the vector for each residue |
| `Gradient.ConstantVectorPeriodic` | main.py:39-47 | the gradient depends only on value mod 4: get_constant_vect(v + 4k) = get_constant_vect(v) for every integer k, negative v included |
| `Gradient.Dot` | main.py:52-53 | definition: x1·x2 + y1·y2 of two vectors; its bound for a gradient is `DotDiagonalBound` |
| `Gradient.DotDiagonalBound` | main.py:52-53 | the dot product of a unit diagonal with an offset is bounded by the offset's 1-norm, and it is 0 for the zero offset |
| `Gradient.Lerp` | main.py:57-58 | the interpolant is value1 at t = 0 and value2 at t = 1 |
| `Gradient.LerpBetween` | main.py:57-58 | for t in [0, 1] the interpolant lies between value1 and value2 |
| `Noise.PermTableInRange` | main.py:26-33 | a table from perm_table(size) with size ≥ 1 has length 2·size and entries in [0, size), which is all the lookups of noise_2d need |
| `Noise.CellOf` | main.py:65-68 | gX and gY lie in [0, border_size) and are congruent to floor(x) and floor(y) modulo border_size; xf and yf lie in [0, 1), and x − xf and y − yf are integers |
| `Noise.LatticeHash` | main.py:77-80 | the double-indirection hash of any corner with column and row in [0, border_size] is a valid entry in [0, border_size) |
| `Noise.CornerHashes` | main.py:77-80 | the four corner hashes, top left (gX, gY+1), top right (gX+1, gY+1), bottom left (gX, gY), bottom right (gX+1, gY), each in [0, border_size) |
| `Noise.LookupsInBounds` | main.py:65-80 | every index noise_2d uses is inside the table: gX + 1 ≤ border_size, and pt[gX] + gY + 1 and pt[gX + 1] + gY + 1 are at most 2·border_size − 1 |
| `Noise.LatticeHashWraps` | main.py:77-80 | with the duplicated second half, the hash of corner (i, j) equals that of (i mod border_size, j mod border_size), so the corners on the far edge match those on the near edge |
| `Noise.CornerOffsets` | main.py:71-74 | definition: the vector from each corner of the unit cell to (xf, yf): (xf, yf − 1), (xf − 1, yf − 1), (xf, yf), (xf − 1, yf) |
| `Noise.CornerDots` | main.py:83-86 | definition: each corner's constant gradient dotted with that corner's offset; bounded by `CornerDotsBounded` |
| `Noise.Noise2D` | main.py:64-96 | definition of noise_2d: the bottom and top dot products blended along fade(yf) on each side, then the two sides along fade(xf); its properties are the lemmas below |
| `Noise.NoiseAtLatticePoint` | main.py:64-96 | at integer coordinates noise_2d returns exactly 0 |
| `Noise.NoiseBetweenCorners` | main.py:83-94 | the noise lies between the smallest and the largest of the four corner dot products |
| `Noise.CornerDotsBounded` | main.py:71-86 | each corner dot product lies in [-2, 2] |
| `Noise.OffsetDotBounded` | main.py:83-86 | a gradient dotted with an offset whose components lie in [-1, 1] lies in [-2, 2] |
| `Noise.Sampler` | main.py:118 | definition: noise_2d as a function of the sample point, with pt and border_size fixed as the renderer passes them |
| `Noise.NoiseBounded` | main.py:64-96 | one octave of noise lies in [-2, 2] |
| `Noise.SamplerBounded` | main.py:118 | every value of the sampler that the octave loop calls lies in [-2, 2] |
| `Noise.NoisePeriodic` | main.py:65-68 | the noise tiles the plane: shifting x or y by border_size leaves it unchanged |
| `Render.Motion` | main.py:115-119 | the amplitude of every octave lies in (0, 1] |
| `Render.Frequency` | main.py:114-120 | the frequency of every octave is at least 0.025 |
| `Render.MotionFrequency` | main.py:114-120 | amplitude × frequency stays 0.025 in every octave: the amplitude halves exactly as the frequency doubles |
| `Render.OctaveSum` | main.py:112-120 | definition: Σ over octaves i < k of Motion(i) · noise(x·Frequency(i), y·Frequency(i)), the value of n after k passes of the octave loop |
| `Render.OctaveStep` | main.py:117-120 | adding octave k changes the sum by at most 2·0.5^k |
| `Render.OctaveSumBounded` | main.py:117-120 | the sum of k octaves lies within 4 − 4·0.5^k of 0 |
| `Render.PixelSumBounded` | main.py:112-120 | the octave sum of any pixel lies strictly between −4 and 4 |
| `Render.PixelIntensity` | main.py:112-124 | the octave loop computes round_half_even(((Σ motion_k · noise(x·freq_k, y·freq_k)) + 1) · 0.5 · 255) for the first `octave` octaves, none when octave ≤ 0 |
| `Render.RoundHalfEven` | main.py:124 | the result is within 1/2 of the argument, and is even when the argument lies exactly halfway |
| `Render.RoundHalfEvenUnique` | main.py:124 | those two properties determine the rounded value |
| `Render.Intensity` | main.py:122-124 | a sum in [-1, 1] gives an intensity in 0..255, and a sum of 0 gives 128 |
| `Render.Colour` | main.py:126-131 | the colour is (0, 0, 2n) for n ≤ 0 and (n, n, n) for n ≥ 1, so the n < 0.9 band is never reached by an integer intensity |
| `Render.PixelColourOf` | main.py:112-131 | definition: the colour of pixel (x, y) is Colour(Intensity(OctaveSum(…))) over Octaves(octave) octaves of the sampler |
| `Render.PixelColour` | main.py:112-131 | the colour branch gives the colour of the pixel's intensity |
| `Render.NoOctavesIsGrey` | main.py:112-131 | with octave ≤ 0 a pixel is (128, 128, 128): the sum stays 0 and round(127.5) = 128 |
| `Render.NoiseRow` | main.py:109-131 | the row for y has one entry per x < width, and entry x is the colour of pixel (x, y) |
| `Render.ApplyNoise` | main.py:101-135 | one table is built for the canvas height and it is a permutation table; the image has height rows of width pixels, and pixel (x, y) gets the colour of its octave sum under that table; with octave ≤ 0 every pixel is (128, 128, 128) |
| `Render.NoOctavesImageIsGrey` | main.py:108-131 | with octave ≤ 0 every pixel of a rendered canvas is (128, 128, 128) |

## Left out

- Canvas creation, the pixel-access object and the write `image[coord] = color` (main.py:12-13, 102, 133) belong to the PIL library. `ApplyNoise` returns the colours as rows instead. PIL's own handling of out-of-range channel values is not modelled.
- `create_noise`, `save_image`, `show_map`, `render_canvas` and the call at the end of the script are file and display I/O. So is the random file name they use.
- The randomness of `random.shuffle`: `Shuffle` takes its choices as the `draws` parameter. The model does not state that every permutation is reachable or equally likely.
- Floating point: every number is an exact `real`. `math.floor` is `.Floor` and Python's `round` is `RoundHalfEven`. IEEE-754 rounding is not modelled.
- Gradient.Fade: monotonicity on [0, 1] is not proved. The code does not rely on it, and it needs reasoning about the sign of a degree-4 polynomial that the solver does not find unaided. Symmetry, the range [0, 1] and the pull towards the nearer end (`FadeTowardEnds`) are proved.
- Noise.NoiseBounded: the comment on `noise_2d` claims the range [-1, 1]. Only [-2, 2] and the bound by the corner dot products are proved.
- Render.PixelIntensity: it takes the sampler as a function value (`Sampler(pt, border_size)` in `PixelColour`) rather than calling `noise_2d` directly. The values computed are the same.
- `noise_2d` with a table that is not from `perm_table`, or with `border_size <= 0`, is excluded by `TableInRange`. In Python such a call would raise an error or index from the end of the list. The script never makes such a call, because a pixel exists only when the height is at least 1.
