/**
 * The bitmap editor's grid helpers (src/bmp2c/gui.py): moving the picture by
 * whole pixels, nearest-neighbour resizing, and painting one pixel with the
 * pen, the eraser or the toggle tool. Canvas rendering is not part of the model.
 */
module Editor {
  import opened BitGrids
  import opened Results
  import opened Arith

  // ---------------------------------------------------------------------
  // Translation
  // ---------------------------------------------------------------------

  /** Pixel (x, y) after moving the picture by (dx, dy): the source pixel when it exists, white otherwise. */
  function ShiftedPixel(g: Grid, dx: int, dy: int, x: int, y: int): int
    requires Rectangular(g)
  {
    if 0 <= y - dy < |g| && 0 <= x - dx < Width(g) then g[y - dy][x - dx] else 0
  }

  /** `_translate_grid`: an empty grid or a zero move gives a grid equal to the input. */
  function Translated(g: Grid, dx: int, dy: int): (r: Grid)
    requires Rectangular(g)
    ensures Rect(r, Width(g), |g|)
  {
    if Width(g) == 0 || |g| == 0 || (dx == 0 && dy == 0) then g
    else
      seq(|g|, y requires 0 <= y < |g| =>
        seq(Width(g), x requires 0 <= x < Width(g) => ShiftedPixel(g, dx, dy, x, y)))
  }

  method TranslateGrid(grid: Grid, dx: int, dy: int) returns (out: Grid)
    requires Rectangular(grid)
    ensures out == Translated(grid, dx, dy)
  {
    var h := |grid|;
    var w := Width(grid);
    if w == 0 || h == 0 || (dx == 0 && dy == 0) {
      return grid;
    }
    var a := new int[h, w]((_, _) => 0);
    for y := 0 to h
      invariant forall i, j | 0 <= i < h && 0 <= j < w ::
        a[i, j] == if i < y then ShiftedPixel(grid, dx, dy, j, i) else 0
    {
      var srcY := y - dy;
      if 0 <= srcY < h {
        for x := 0 to w
          invariant forall i, j | 0 <= i < h && 0 <= j < w ::
            a[i, j] == if i < y || (i == y && j < x) then ShiftedPixel(grid, dx, dy, j, i) else 0
        {
          var srcX := x - dx;
          if 0 <= srcX < w {
            a[y, x] := grid[srcY][srcX];
          }
        }
      }
    }
    GridExt(ToGrid(a), Translated(grid, dx, dy));
    out := ToGrid(a);
  }

  /** Every pixel of the moved picture is the source pixel (x-dx, y-dy) when that exists, and white otherwise. */
  lemma TranslateLaw(g: Grid, dx: int, dy: int)
    requires Rectangular(g)
    ensures forall y, x | 0 <= y < |g| && 0 <= x < Width(g) ::
      Translated(g, dx, dy)[y][x] == ShiftedPixel(g, dx, dy, x, y)
  {
  }

  /** A zero move, or a move of an empty grid, returns a grid equal to the input. */
  lemma TranslateByNothing(g: Grid, dx: int, dy: int)
    requires Rectangular(g)
    requires Width(g) == 0 || |g| == 0 || (dx == 0 && dy == 0)
    ensures Translated(g, dx, dy) == g
  {
  }

  /**
   * Moving back undoes a move for every pixel that stayed on the canvas; the
   * pixels that were pushed off come back white.
   */
  lemma TranslateBack(g: Grid, dx: int, dy: int)
    requires Rectangular(g)
    ensures var back := Translated(Translated(g, dx, dy), -dx, -dy);
      && Rect(back, Width(g), |g|)
      && forall y, x | 0 <= y < |g| && 0 <= x < Width(g) ::
           back[y][x] == if 0 <= y + dy < |g| && 0 <= x + dx < Width(g) then g[y][x] else 0
  {
    var t := Translated(g, dx, dy);
    TranslateLaw(g, dx, dy);
    TranslateLaw(t, -dx, -dy);
  }

  /** Moving keeps a picture black and white. */
  lemma TranslateKeepsBinary(g: Grid, dx: int, dy: int)
    requires Rectangular(g) && Binary(g)
    ensures Binary(Translated(g, dx, dy))
  {
    TranslateLaw(g, dx, dy);
  }

  // ---------------------------------------------------------------------
  // Nearest-neighbour resize
  // ---------------------------------------------------------------------

  /** The requested size, raised to at least 1. */
  function AtLeastOne(n: int): (r: int)
    ensures r >= 1 && r >= n && (n >= 1 ==> r == n)
  {
    if n < 1 then 1 else n
  }

  /** The source row (or column) sampled for output row (or column) o. */
  function SourceIndex(o: int, inN: int, newN: int): (i: int)
    requires 0 <= o < newN && inN > 0
    ensures 0 <= i < inN
  {
    var scaled := (o * inN) / newN;
    if inN - 1 <= scaled then inN - 1 else scaled
  }

  /** `_resize_bitgrid_nn`: a max(1, newH) by max(1, newW) grid, all white when the input is empty. */
  function Resized(g: Grid, newW: int, newH: int): (r: Grid)
    requires Rectangular(g)
    ensures Rect(r, AtLeastOne(newW), AtLeastOne(newH))
  {
    var nw, nh := AtLeastOne(newW), AtLeastOne(newH);
    if Width(g) == 0 || |g| == 0 then seq(nh, _ => Zeros(nw))
    else
      seq(nh, y requires 0 <= y < nh =>
        seq(nw, x requires 0 <= x < nw => g[SourceIndex(y, |g|, nh)][SourceIndex(x, Width(g), nw)]))
  }

  method ResizeBitgridNN(grid: Grid, newW: int, newH: int) returns (out: Grid)
    requires Rectangular(grid)
    ensures out == Resized(grid, newW, newH)
  {
    var inH := |grid|;
    var inW := Width(grid);
    var nw := AtLeastOne(newW);
    var nh := AtLeastOne(newH);
    if inW == 0 || inH == 0 {
      return seq(nh, _ => Zeros(nw));
    }
    ghost var want := Resized(grid, newW, newH);
    out := [];
    for yOut := 0 to nh
      invariant out == want[..yOut]
    {
      var yIn := SourceIndex(yOut, inH, nh);
      var rowOut: seq<int> := [];
      for xOut := 0 to nw
        invariant rowOut == want[yOut][..xOut]
      {
        var xIn := SourceIndex(xOut, inW, nw);
        rowOut := rowOut + [grid[yIn][xIn]];
      }
      assert |want[yOut]| == nw;
      assert rowOut == want[yOut];
      assert want[..yOut + 1] == want[..yOut] + [want[yOut]];
      out := out + [rowOut];
    }
    assert want[..nh] == want;
  }

  /** An empty input resizes to an all-white grid of the requested size. */
  lemma ResizeEmptyIsWhite(g: Grid, newW: int, newH: int)
    requires Rectangular(g) && (Width(g) == 0 || |g| == 0)
    ensures var r := Resized(g, newW, newH);
      forall y, x | 0 <= y < |r| && 0 <= x < |r[y]| :: r[y][x] == 0
  {
  }

  /** Output pixel (x, y) copies the source pixel at the scaled-down coordinates, which are always on the grid. */
  lemma ResizeLaw(g: Grid, newW: int, newH: int)
    requires Rectangular(g) && Width(g) > 0 && |g| > 0
    ensures forall y, x | 0 <= y < AtLeastOne(newH) && 0 <= x < AtLeastOne(newW) ::
      Resized(g, newW, newH)[y][x] == g[SourceIndex(y, |g|, AtLeastOne(newH))][SourceIndex(x, Width(g), AtLeastOne(newW))]
  {
    forall y, x | 0 <= y < AtLeastOne(newH) && 0 <= x < AtLeastOne(newW)
      ensures Resized(g, newW, newH)[y][x] == g[SourceIndex(y, |g|, AtLeastOne(newH))][SourceIndex(x, Width(g), AtLeastOne(newW))]
    {
      ResizedAt(g, newW, newH, y, x);
    }
  }

  /** One output pixel of a resize. */
  lemma ResizedAt(g: Grid, newW: int, newH: int, y: int, x: int)
    requires Rectangular(g) && Width(g) > 0 && |g| > 0
    requires 0 <= y < AtLeastOne(newH) && 0 <= x < AtLeastOne(newW)
    ensures Resized(g, newW, newH)[y][x] == g[SourceIndex(y, |g|, AtLeastOne(newH))][SourceIndex(x, Width(g), AtLeastOne(newW))]
  {
  }

  /** Sampling at the same size picks the same index. */
  lemma SameSizeIndex(o: int, n: int)
    requires 0 <= o < n
    ensures SourceIndex(o, n, n) == o
  {
    assert o * n + 0 == o * n;
    DivModOf(o, 0, n);
  }

  /** Resizing a picture to its own size gives it back unchanged. */
  lemma ResizeToSameSize(g: Grid)
    requires Rectangular(g) && Width(g) > 0 && |g| > 0
    ensures Resized(g, Width(g), |g|) == g
  {
    var r := Resized(g, Width(g), |g|);
    forall y, x | 0 <= y < |g| && 0 <= x < Width(g)
      ensures r[y][x] == g[y][x]
    {
      SameSizeIndex(y, |g|);
      SameSizeIndex(x, Width(g));
    }
    GridExt(r, g);
  }

  /** Resizing keeps a picture black and white. */
  lemma ResizeKeepsBinary(g: Grid, newW: int, newH: int)
    requires Rectangular(g) && Binary(g)
    ensures Binary(Resized(g, newW, newH))
  {
    if Width(g) > 0 && |g| > 0 {
      ResizeLaw(g, newW, newH);
    }
  }

  // ---------------------------------------------------------------------
  // Painting
  // ---------------------------------------------------------------------

  /** The new value of a painted pixel: pen inks, eraser whitens, toggle flips; any other tool leaves it. */
  function PaintValue(v: int, action: string): (r: int)
    ensures action == "pen" ==> r == 1
    ensures action == "eraser" ==> r == 0
    ensures action == "toggle" ==> r == 1 - v
    ensures action !in {"pen", "eraser", "toggle"} ==> r == v
  {
    if action == "pen" then 1
    else if action == "eraser" then 0
    else if action == "toggle" then 1 - v
    else v
  }

  /** The grid update of `_paint_at`: only pixel (x, y) may change, and only when it is on the grid. */
  function Painted(g: Grid, x: int, y: int, action: string): (r: Grid)
    requires Rectangular(g)
    ensures Rect(r, Width(g), |g|)
    ensures forall j, i | 0 <= j < |g| && 0 <= i < Width(g) ::
      r[j][i] == if i == x && j == y then PaintValue(g[j][i], action) else g[j][i]
  {
    if !(0 <= x < Width(g) && 0 <= y < |g|) then g
    else g[y := g[y][x := PaintValue(g[y][x], action)]]
  }

  /** A point off the grid changes nothing. */
  lemma PaintOutside(g: Grid, x: int, y: int, action: string)
    requires Rectangular(g) && !(0 <= x < Width(g) && 0 <= y < |g|)
    ensures Painted(g, x, y, action) == g
  {
  }

  /** Toggling the same pixel twice restores the picture. */
  lemma ToggleTwice(g: Grid, x: int, y: int)
    requires Rectangular(g)
    ensures Painted(Painted(g, x, y, "toggle"), x, y, "toggle") == g
  {
    var once := Painted(g, x, y, "toggle");
    GridExt(Painted(once, x, y, "toggle"), g);
  }

  /** Pen and eraser strokes on the same pixel: painting again changes nothing. */
  lemma PenAndEraserIdempotent(g: Grid, x: int, y: int, action: string)
    requires Rectangular(g) && (action == "pen" || action == "eraser")
    ensures Painted(Painted(g, x, y, action), x, y, action) == Painted(g, x, y, action)
  {
    var once := Painted(g, x, y, action);
    GridExt(Painted(once, x, y, action), once);
  }

  /** Painting keeps a picture black and white. */
  lemma PaintKeepsBinary(g: Grid, x: int, y: int, action: string)
    requires Rectangular(g) && Binary(g)
    ensures Binary(Painted(g, x, y, action))
  {
  }

  /** The editor's working picture: absent until an image is loaded or created. */
  class BitmapEditor {
    var editGrid: Option<Grid>

    ghost predicate Valid()
      reads this
    {
      editGrid.Some? ==> Rectangular(editGrid.value)
    }

    constructor ()
      ensures Valid() && editGrid == None
    {
      editGrid := None;
    }

    /** Paints pixel (x, y) of the working picture with the given tool; nothing happens without a picture. */
    method PaintAt(x: int, y: int, action: string)
      requires Valid()
      modifies this
      ensures Valid()
      ensures editGrid == if old(editGrid).None? then None else Some(Painted(old(editGrid).value, x, y, action))
    {
      if editGrid.None? {
        return;
      }
      var grid := editGrid.value;
      var h := |grid|;
      var w := if h > 0 then |grid[0]| else 0;
      if !(0 <= x < w && 0 <= y < h) {
        return;
      }
      if action == "pen" {
        grid := grid[y := grid[y][x := 1]];
      } else if action == "eraser" {
        grid := grid[y := grid[y][x := 0]];
      } else if action == "toggle" {
        grid := grid[y := grid[y][x := 1 - grid[y][x]]];
      } else {
        assert grid[y][x := grid[y][x]] == grid[y];
        assert grid == grid[y := grid[y][x := grid[y][x]]];
      }
      editGrid := Some(grid);
    }
  }
}
