/**
 * The bit grid shared by every stage of the converter: a sequence of rows,
 * each a sequence of pixel values, 1 for ink (black) and 0 for background.
 */
module BitGrids {

  type Grid = seq<seq<int>>

  /** Number of rows. */
  function Height(g: Grid): nat { |g| }

  /** Width as the converter reads it: the length of the first row, or 0 when there is no row. */
  function Width(g: Grid): nat { if |g| > 0 then |g[0]| else 0 }

  /** Every row is as long as the first one (the decoder's promise). */
  predicate Rectangular(g: Grid) {
    forall y | 0 <= y < |g| :: |g[y]| == Width(g)
  }

  /** A rectangular grid of the given width and height. */
  predicate Rect(g: Grid, w: nat, h: nat) {
    Rectangular(g) && Width(g) == w && |g| == h
  }

  /** Every pixel is 0 or 1. */
  predicate Binary(g: Grid) {
    forall y, x | 0 <= y < |g| && 0 <= x < |g[y]| :: g[y][x] == 0 || g[y][x] == 1
  }

  /** Pixel (x, y) exists and is ink. */
  predicate InkAt(g: Grid, x: int, y: int) {
    0 <= y < |g| && 0 <= x < |g[y]| && g[y][x] == 1
  }

  /** A white row of n pixels. */
  function Zeros(n: nat): (r: seq<int>)
    ensures |r| == n && forall i | 0 <= i < n :: r[i] == 0
  {
    seq(n, _ => 0)
  }

  /** The rows of a two-dimensional array, first index = row. */
  function ToGrid(a: array2<int>): (g: Grid)
    reads a
    ensures |g| == a.Length0
    ensures forall i | 0 <= i < a.Length0 :: |g[i]| == a.Length1
    ensures forall i, j | 0 <= i < a.Length0 && 0 <= j < a.Length1 :: g[i][j] == a[i, j]
  {
    seq(a.Length0, i requires 0 <= i < a.Length0 reads a =>
      seq(a.Length1, j requires 0 <= j < a.Length1 reads a => a[i, j]))
  }

  /** Two grids with the same shape and the same pixels are equal. */
  lemma GridExt(a: Grid, b: Grid)
    requires |a| == |b|
    requires forall i | 0 <= i < |a| :: |a[i]| == |b[i]|
    requires forall i, j | 0 <= i < |a| && 0 <= j < |a[i]| :: a[i][j] == b[i][j]
    ensures a == b
  {
    forall i | 0 <= i < |a| ensures a[i] == b[i] {
      assert a[i] == b[i];
    }
  }
}
