/**
 * The three ways a grayscale frame becomes a 1-bit mask (`true` = set, dark pixel):
 * ordered dithering against a tiled 8x8 Bayer threshold matrix, and the two
 * error-diffusion scans, Floyd-Steinberg (serpentine) and Atkinson (raster),
 * which rewrite a working grid of integers in place.
 * The frame dimensions appear as the literals 128 (width), 64 (height) and
 * 8192 (pixels) so that every row-major index `y * 128 + x` stays linear.
 */
module Dithering {
  import opened Bytes
  import opened Packing

  type TileValue = v: int | 0 <= v < 64
  type TileRow = r: seq<TileValue> | |r| == 8 witness [0, 0, 0, 0, 0, 0, 0, 0]

  /** The 8x8 Bayer index matrix, values 0..63. */
  const Bayer8: seq<TileRow> := [
    [0, 48, 12, 60, 3, 51, 15, 63],
    [32, 16, 44, 28, 35, 19, 47, 31],
    [8, 56, 4, 52, 11, 59, 7, 55],
    [40, 24, 36, 20, 43, 27, 39, 23],
    [2, 50, 14, 62, 1, 49, 13, 61],
    [34, 18, 46, 30, 33, 17, 45, 29],
    [10, 58, 6, 54, 9, 57, 5, 53],
    [42, 26, 38, 22, 41, 25, 37, 21]
  ]

  /** The threshold of pixel (y, x): the tiled matrix scaled by 4 and offset by 2. */
  function Threshold(y: nat, x: nat): (t: int)
    ensures 2 <= t <= 254
  {
    (Bayer8[y % 8][x % 8] as int) * 4 + 2
  }

  /** Ordered dithering: a pixel is set iff its value is strictly below its threshold. */
  function BayerMask(frame: seq<Byte>): (on: Mask)
    requires |frame| == 8192
  {
    seq(8192, n requires 0 <= n < 8192 => frame[n] < Threshold(n / 128, n % 128))
  }

  /** A white (255) frame sets no pixel and a black (0) frame sets every pixel. */
  lemma BayerUniform(value: Byte)
    requires value == 0 || value == 255
    ensures BayerMask(seq(8192, _ => value)) == seq(8192, _ => value == 0)
  {
  }

  // ---------------------------------------------------------------------------
  // Error diffusion

  datatype Diffusion = FloydSteinberg | Atkinson

  /** The working grid: one (unbounded) integer per pixel, row-major. */
  type Grid = g: seq<int> | |g| == 8192 witness seq(8192, _ => 0)

  function Cell(g: Grid, y: nat, x: nat): int
    requires y < 64 && x < 128
  {
    g[y * 128 + x]
  }

  /** A visited pixel becomes black (0) below 128 and white (255) otherwise. */
  function Quantize(v: int): (q: int)
    ensures q == 0 || q == 255
    ensures q == 0 <==> v < 128
  {
    if v < 128 then 0 else 255
  }

  /** The column of the j-th pixel visited in row y: odd Floyd-Steinberg rows run right to left. */
  function ScanX(m: Diffusion, y: nat, j: nat): (x: nat)
    requires j < 128
    ensures x < 128
  {
    if m == FloydSteinberg && y % 2 == 1 then 128 - 1 - j else j
  }

  /** The position of pixel (y, x) in the scan order of `m`. */
  function Rank(m: Diffusion, y: nat, x: nat): nat
    requires x < 128
  {
    y * 128 + (if m == FloydSteinberg && y % 2 == 1 then 128 - 1 - x else x)
  }

  /** Adds `d` to cell `i` when `cond` holds: the bounds checks in front of every neighbour update. */
  function AddIf(g: Grid, cond: bool, i: int, d: int): Grid
    requires cond ==> 0 <= i < 8192
  {
    if cond then g[i := g[i] + d] else g
  }

  /** One Floyd-Steinberg step at (y, x) scanning in direction `dir`: weights 7, 5, 3, 1 sixteenths, floored. */
  function FsPixel(g: Grid, y: nat, x: nat, dir: int): Grid
    requires y < 64 && x < 128 && (dir == 1 || dir == -1)
  {
    var i := y * 128 + x;
    FsSpread(g[i := Quantize(g[i])], y, x, dir, g[i] - Quantize(g[i]))
  }

  /** The four neighbour updates of a Floyd-Steinberg step carrying error `err`. */
  function FsSpread(g1: Grid, y: nat, x: nat, dir: int, err: int): Grid
    requires y < 64 && x < 128 && (dir == 1 || dir == -1)
  {
    var xn, xp := x + dir, x - dir;
    var g2 := AddIf(g1, 0 <= xn < 128, y * 128 + xn, (err * 7) / 16);
    var g3 := AddIf(g2, y + 1 < 64, (y + 1) * 128 + x, (err * 5) / 16);
    var g4 := AddIf(g3, y + 1 < 64 && 0 <= xp < 128, (y + 1) * 128 + xp, (err * 3) / 16);
    AddIf(g4, y + 1 < 64 && 0 <= xn < 128, (y + 1) * 128 + xn, (err * 1) / 16)
  }

  /** One Atkinson step at (y, x): six neighbours each receive the floored eighth of the error. */
  function AtkinsonPixel(g: Grid, y: nat, x: nat): Grid
    requires y < 64 && x < 128
  {
    var i := y * 128 + x;
    var q := (g[i] - Quantize(g[i])) / 8;
    var g1 := g[i := Quantize(g[i])];
    var g2 := AddIf(g1, x + 1 < 128, i + 1, q);
    var g3 := AddIf(g2, x + 2 < 128, i + 2, q);
    var g4 := AddIf(g3, y + 1 < 64 && x >= 1, (y + 1) * 128 + x - 1, q);
    var g5 := AddIf(g4, y + 1 < 64, (y + 1) * 128 + x, q);
    var g6 := AddIf(g5, y + 1 < 64 && x + 1 < 128, (y + 1) * 128 + x + 1, q);
    AddIf(g6, y + 2 < 64, (y + 2) * 128 + x, q)
  }

  /** The step for the j-th pixel visited in row y. */
  function Visit(m: Diffusion, g: Grid, y: nat, j: nat): Grid
    requires y < 64 && j < 128
  {
    match m
    case FloydSteinberg => FsPixel(g, y, ScanX(m, y, j), if y % 2 == 1 then -1 else 1)
    case Atkinson => AtkinsonPixel(g, y, j)
  }

  /** The grid after visiting every row above y and the first j pixels of row y. */
  function Diffuse(m: Diffusion, g: Grid, y: nat, j: nat): Grid
    requires y <= 64 && j <= 128 && (y == 64 ==> j == 0)
    decreases y, j
  {
    if j > 0 then Visit(m, Diffuse(m, g, y, j - 1), y, j - 1)
    else if y > 0 then Diffuse(m, g, y - 1, 128)
    else g
  }

  /** The grid after the whole scan. */
  function DiffuseAll(m: Diffusion, g: Grid): Grid {
    Diffuse(m, g, 64, 0)
  }

  /** `arr < 128` after the scan. */
  function DiffusionMask(m: Diffusion, frame: seq<Byte>): (on: Mask)
    requires |frame| == 8192
  {
    var g := DiffuseAll(m, frame);
    seq(8192, n requires 0 <= n < 8192 => g[n] < 128)
  }

  /** Two cells with the same rank are the same cell. */
  lemma RankInjective(m: Diffusion, y1: nat, x1: nat, y2: nat, x2: nat)
    requires x1 < 128 && x2 < 128
    requires Rank(m, y1, x1) == Rank(m, y2, x2)
    ensures y1 == y2 && x1 == x2
  {
  }

  /** A Floyd-Steinberg step writes no cell that its scan has already passed. */
  lemma FsPixelKeeps(g: Grid, y: nat, x: nat, dir: int, yy: nat, xx: nat)
    requires y < 64 && x < 128 && (dir == 1 || dir == -1)
    requires yy < 64 && xx < 128
    requires yy < y || (yy == y && (if dir == 1 then xx < x else xx > x))
    ensures Cell(FsPixel(g, y, x, dir), yy, xx) == Cell(g, yy, xx)
  {
    var n := yy * 128 + xx;
    assert n != y * 128 + x;
    assert 0 <= x + dir < 128 ==> n != y * 128 + x + dir;
    assert n < (y + 1) * 128;
  }

  /** An Atkinson step writes no cell that its scan has already passed. */
  lemma AtkinsonPixelKeeps(g: Grid, y: nat, x: nat, yy: nat, xx: nat)
    requires y < 64 && x < 128
    requires yy < 64 && xx < 128
    requires yy < y || (yy == y && xx < x)
    ensures Cell(AtkinsonPixel(g, y, x), yy, xx) == Cell(g, yy, xx)
  {
    var n := yy * 128 + xx;
    assert n < y * 128 + x;
  }

  /**
   * A step only writes the visited cell, which it quantizes, and cells that come
   * later in the scan: every cell ranked before the visited one keeps its value.
   */
  lemma VisitFrame(m: Diffusion, g: Grid, y: nat, j: nat)
    requires y < 64 && j < 128
    ensures Cell(Visit(m, g, y, j), y, ScanX(m, y, j)) == Quantize(Cell(g, y, ScanX(m, y, j)))
    ensures forall yy: nat, xx: nat | yy < 64 && xx < 128 && Rank(m, yy, xx) < y * 128 + j ::
      Cell(Visit(m, g, y, j), yy, xx) == Cell(g, yy, xx)
  {
    var x := ScanX(m, y, j);
    forall yy: nat, xx: nat | yy < 64 && xx < 128 && Rank(m, yy, xx) < y * 128 + j
      ensures Cell(Visit(m, g, y, j), yy, xx) == Cell(g, yy, xx)
    {
      match m
      case FloydSteinberg =>
        FsPixelKeeps(g, y, x, if y % 2 == 1 then -1 else 1, yy, xx);
      case Atkinson =>
        AtkinsonPixelKeeps(g, y, x, yy, xx);
    }
  }

  predicate QuantizedBefore(m: Diffusion, g: Grid, bound: nat) {
    forall yy: nat, xx: nat | yy < 64 && xx < 128 && Rank(m, yy, xx) < bound ::
      Cell(g, yy, xx) == 0 || Cell(g, yy, xx) == 255
  }

  /** Every cell already visited holds 0 or 255. */
  lemma {:induction false} DiffuseQuantized(m: Diffusion, g: Grid, y: nat, j: nat)
    requires y <= 64 && j <= 128 && (y == 64 ==> j == 0)
    ensures QuantizedBefore(m, Diffuse(m, g, y, j), y * 128 + j)
    decreases y, j
  {
    if j > 0 {
      var prev := Diffuse(m, g, y, j - 1);
      var b := y * 128 + j;
      DiffuseQuantized(m, g, y, j - 1);
      assert QuantizedBefore(m, prev, b - 1);
      QuantizedStep(m, prev, y, j - 1);
      assert QuantizedBefore(m, Visit(m, prev, y, j - 1), b);
    } else if y > 0 {
      var b := y * 128;
      DiffuseQuantized(m, g, y - 1, 128);
      assert (y - 1) * 128 + 128 == b;
      assert QuantizedBefore(m, Diffuse(m, g, y - 1, 128), b);
    }
  }

  /** Visiting the next cell in scan order extends the quantized prefix by that cell. */
  lemma QuantizedStep(m: Diffusion, g: Grid, y: nat, j: nat)
    requires y < 64 && j < 128
    requires QuantizedBefore(m, g, y * 128 + j)
    ensures QuantizedBefore(m, Visit(m, g, y, j), y * 128 + j + 1)
  {
    VisitFrame(m, g, y, j);
    var x := ScanX(m, y, j);
    forall yy: nat, xx: nat | yy < 64 && xx < 128 && Rank(m, yy, xx) == y * 128 + j
      ensures yy == y && xx == x
    {
      RankInjective(m, yy, xx, y, x);
    }
  }

  /** After the whole scan every cell is 0 or 255, so a pixel is set iff its cell ended at 0. */
  lemma DiffusionBinary(m: Diffusion, frame: seq<Byte>)
    requires |frame| == 8192
    ensures forall n | 0 <= n < 8192 :: DiffuseAll(m, frame)[n] == 0 || DiffuseAll(m, frame)[n] == 255
    ensures forall n | 0 <= n < 8192 :: DiffusionMask(m, frame)[n] <==> DiffuseAll(m, frame)[n] == 0
  {
    var r := DiffuseAll(m, frame);
    DiffuseQuantized(m, frame, 64, 0);
    forall n | 0 <= n < 8192
      ensures r[n] == 0 || r[n] == 255
    {
      QuantizedCell(m, r, n);
    }
  }

  /** Once the whole scan is quantized, so is every cell of the grid. */
  lemma QuantizedCell(m: Diffusion, g: Grid, n: nat)
    requires QuantizedBefore(m, g, 64 * 128 + 0) && n < 8192
    ensures g[n] == 0 || g[n] == 255
  {
    var yy, xx := n / 128, n % 128;
    assert n == yy * 128 + xx;
    assert Rank(m, yy, xx) < 64 * 128;
  }

  lemma AddNothing(g: Grid, cond: bool, i: int)
    requires cond ==> 0 <= i < 8192
    ensures AddIf(g, cond, i, 0) == g
  {
  }

  /** A cell already at 0 or 255 carries no error: visiting it changes nothing. */
  lemma VisitBinaryCell(m: Diffusion, g: Grid, y: nat, j: nat)
    requires y < 64 && j < 128
    requires Cell(g, y, ScanX(m, y, j)) == 0 || Cell(g, y, ScanX(m, y, j)) == 255
    ensures Visit(m, g, y, j) == g
  {
    match m
    case FloydSteinberg =>
      FsBinaryCell(g, y, ScanX(m, y, j), if y % 2 == 1 then -1 else 1);
    case Atkinson =>
      AtkinsonBinaryCell(g, y, j);
  }

  lemma FsBinaryCell(g: Grid, y: nat, x: nat, dir: int)
    requires y < 64 && x < 128 && (dir == 1 || dir == -1)
    requires Cell(g, y, x) == 0 || Cell(g, y, x) == 255
    ensures FsPixel(g, y, x, dir) == g
  {
    var i := y * 128 + x;
    assert g[i := Quantize(g[i])] == g;
    forall cond: bool, t: int | cond ==> 0 <= t < 8192 {
      AddNothing(g, cond, t);
    }
  }

  lemma AtkinsonBinaryCell(g: Grid, y: nat, x: nat)
    requires y < 64 && x < 128
    requires Cell(g, y, x) == 0 || Cell(g, y, x) == 255
    ensures AtkinsonPixel(g, y, x) == g
  {
    var i := y * 128 + x;
    assert g[i := Quantize(g[i])] == g;
    forall cond: bool, t: int | cond ==> 0 <= t < 8192 {
      AddNothing(g, cond, t);
    }
  }

  /** A white grid stays white and a black grid stays black under either diffusion. */
  lemma {:induction false} DiffuseUniform(m: Diffusion, u: Grid, value: int, y: nat, j: nat)
    requires value == 0 || value == 255
    requires forall n | 0 <= n < 8192 :: u[n] == value
    requires y <= 64 && j <= 128 && (y == 64 ==> j == 0)
    ensures Diffuse(m, u, y, j) == u
    decreases y, j
  {
    if j > 0 {
      DiffuseUniform(m, u, value, y, j - 1);
      VisitBinaryCell(m, u, y, j - 1);
    } else if y > 0 {
      DiffuseUniform(m, u, value, y - 1, 128);
    }
  }

  /** Uniform frames dither to the uniform mask: white to all clear, black to all set. */
  lemma DiffusionMaskUniform(m: Diffusion, value: Byte)
    requires value == 0 || value == 255
    ensures DiffusionMask(m, seq(8192, _ => value)) == seq(8192, _ => value == 0)
  {
    var u: Grid := seq(8192, _ => value);
    DiffuseUniform(m, u, value, 64, 0);
  }

  // ---------------------------------------------------------------------------
  // The scans as the source runs them: nested loops over a working array

  /** `if cond: arr[i] += d`, one bounds-checked neighbour update. */
  method AddIfInPlace(arr: array<int>, cond: bool, i: int, d: int)
    requires arr.Length == 8192
    requires cond ==> 0 <= i < 8192
    modifies arr
    ensures arr[..] == AddIf(old(arr[..]), cond, i, d)
  {
    if cond {
      arr[i] := arr[i] + d;
    }
  }

  /** Quantizes cell i in place and returns the quantization error `old - new`. */
  method QuantizeInPlace(arr: array<int>, i: nat) returns (err: int)
    requires arr.Length == 8192 && i < 8192
    modifies arr
    ensures arr[..] == old(arr[..])[i := Quantize(old(arr[i]))]
    ensures err == old(arr[i]) - Quantize(old(arr[i]))
  {
    var oldValue := arr[i];
    var newValue := if oldValue < 128 then 0 else 255;
    err := oldValue - newValue;
    arr[i] := newValue;
  }

  /** The body of the Floyd-Steinberg inner loop at (y, x). */
  method FsVisitInPlace(arr: array<int>, y: nat, x: nat, dir: int)
    requires arr.Length == 8192
    requires y < 64 && x < 128 && (dir == 1 || dir == -1)
    modifies arr
    ensures arr[..] == FsPixel(old(arr[..]), y, x, dir)
  {
    var err := QuantizeInPlace(arr, y * 128 + x);
    FsSpreadInPlace(arr, y, x, dir, err);
  }

  /** The neighbour updates of the Floyd-Steinberg inner loop. */
  method FsSpreadInPlace(arr: array<int>, y: nat, x: nat, dir: int, err: int)
    requires arr.Length == 8192
    requires y < 64 && x < 128 && (dir == 1 || dir == -1)
    modifies arr
    ensures arr[..] == FsSpread(old(arr[..]), y, x, dir, err)
  {
    var xn := x + dir;
    var xp := x - dir;
    AddIfInPlace(arr, 0 <= xn < 128, y * 128 + xn, (err * 7) / 16);
    ghost var g2: Grid := arr[..];
    AddIfInPlace(arr, y + 1 < 64, (y + 1) * 128 + x, (err * 5) / 16);
    ghost var g3: Grid := arr[..];
    AddIfInPlace(arr, y + 1 < 64 && 0 <= xp < 128, (y + 1) * 128 + xp, (err * 3) / 16);
    ghost var g4: Grid := arr[..];
    AddIfInPlace(arr, y + 1 < 64 && 0 <= xn < 128, (y + 1) * 128 + xn, (err * 1) / 16);
  }

  /** The body of the Atkinson inner loop at (y, x). */
  method AtkinsonVisitInPlace(arr: array<int>, y: nat, x: nat)
    requires arr.Length == 8192
    requires y < 64 && x < 128
    modifies arr
    ensures arr[..] == AtkinsonPixel(old(arr[..]), y, x)
  {
    var i := y * 128 + x;
    ghost var g: Grid := arr[..];
    var err := QuantizeInPlace(arr, i);
    var q := err / 8;
    assert arr[..] == g[i := Quantize(g[i])] && q == (g[i] - Quantize(g[i])) / 8;
    AddIfInPlace(arr, x + 1 < 128, i + 1, q);
    ghost var g2: Grid := arr[..];
    AddIfInPlace(arr, x + 2 < 128, i + 2, q);
    ghost var g3: Grid := arr[..];
    AddIfInPlace(arr, y + 1 < 64 && x >= 1, (y + 1) * 128 + x - 1, q);
    ghost var g4: Grid := arr[..];
    AddIfInPlace(arr, y + 1 < 64, (y + 1) * 128 + x, q);
    ghost var g5: Grid := arr[..];
    AddIfInPlace(arr, y + 1 < 64 && x + 1 < 128, (y + 1) * 128 + x + 1, q);
    ghost var g6: Grid := arr[..];
    AddIfInPlace(arr, y + 2 < 64, (y + 2) * 128 + x, q);
  }

  /** `dither == "fs"`: serpentine Floyd-Steinberg over `arr`, in place. */
  method FloydSteinbergInPlace(arr: array<int>)
    requires arr.Length == 8192
    modifies arr
    ensures arr[..] == DiffuseAll(FloydSteinberg, old(arr[..]))
  {
    ghost var g0: Grid := arr[..];
    for y := 0 to 64
      invariant arr[..] == Diffuse(FloydSteinberg, g0, y, 0)
    {
      var dir := if y % 2 == 1 then -1 else 1;
      for j := 0 to 128
        invariant arr[..] == Diffuse(FloydSteinberg, g0, y, j)
      {
        var x := if y % 2 == 1 then 128 - 1 - j else j;
        assert Diffuse(FloydSteinberg, g0, y, j + 1) == FsPixel(Diffuse(FloydSteinberg, g0, y, j), y, x, dir);
        FsVisitInPlace(arr, y, x, dir);
      }
    }
  }

  /** `dither == "atkinson"`: raster-order Atkinson over `arr`, in place. */
  method AtkinsonInPlace(arr: array<int>)
    requires arr.Length == 8192
    modifies arr
    ensures arr[..] == DiffuseAll(Atkinson, old(arr[..]))
  {
    ghost var g0: Grid := arr[..];
    for y := 0 to 64
      invariant arr[..] == Diffuse(Atkinson, g0, y, 0)
    {
      for x := 0 to 128
        invariant arr[..] == Diffuse(Atkinson, g0, y, x)
      {
        AtkinsonVisitInPlace(arr, y, x);
      }
    }
  }
}
