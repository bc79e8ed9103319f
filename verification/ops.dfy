/**
 * Geometric edits on a bit grid (src/bmp2c/ops.py): invert, flips, clockwise
 * rotation, trim to the ink bounding box, white padding and point draws, and
 * the fixed-order pipeline that chains them.
 *
 * Every operation that the source writes as loops is a method proved equal
 * to a specification function; the lemmas below state what those functions
 * promise.
 */
module Ops {
  import opened BitGrids
  import opened Results

  /** One point edit: action "set" forces ink, "clear" forces white. */
  datatype Draw = Draw(x: int, y: int, action: string)

  /** The edit configuration; `rotate` is None when no rotation is asked for. */
  datatype EditOptions = EditOptions(
    invert: bool,
    flipH: bool,
    flipV: bool,
    rotate: Option<int>,
    trim: bool,
    padLeft: int,
    padRight: int,
    padTop: int,
    padBottom: int,
    draws: seq<Draw>)

  /** The configuration errors the edits raise. */
  datatype EditError =
    | BadAngle(angle: int)
    | NegativePad
    | DrawOutOfBounds(x: int, y: int, w: int, h: int)
    | BadDrawAction(action: string)

  // ---------------------------------------------------------------------
  // Invert and flips (comprehensions in the source)
  // ---------------------------------------------------------------------

  /** Every pixel v becomes 1 - v. */
  function Invert(g: Grid): (r: Grid)
    ensures |r| == |g| && forall y | 0 <= y < |g| :: |r[y]| == |g[y]|
    ensures Rectangular(g) ==> Rect(r, Width(g), |g|)
  {
    seq(|g|, y requires 0 <= y < |g| => seq(|g[y]|, x requires 0 <= x < |g[y]| => 1 - g[y][x]))
  }

  /** The row read right to left. */
  function Reversed(s: seq<int>): (r: seq<int>)
    ensures |r| == |s|
  {
    seq(|s|, i requires 0 <= i < |s| => s[|s| - 1 - i])
  }

  /** Mirror left to right: each row is reversed. */
  function FlipH(g: Grid): (r: Grid)
    ensures |r| == |g| && forall y | 0 <= y < |g| :: |r[y]| == |g[y]|
    ensures Rectangular(g) ==> Rect(r, Width(g), |g|)
  {
    seq(|g|, y requires 0 <= y < |g| => Reversed(g[y]))
  }

  /** Mirror top to bottom: the order of the rows is reversed. */
  function FlipV(g: Grid): (r: Grid)
    ensures |r| == |g| && forall y | 0 <= y < |g| :: r[y] == g[|g| - 1 - y]
    ensures Rectangular(g) ==> Rect(r, Width(g), |g|)
  {
    seq(|g|, y requires 0 <= y < |g| => g[|g| - 1 - y])
  }

  /** Pixel (x, y) of the inverse is 1 minus pixel (x, y). */
  lemma InvertLaw(g: Grid)
    ensures forall y, x | 0 <= y < |g| && 0 <= x < |g[y]| :: Invert(g)[y][x] == 1 - g[y][x]
  {
  }

  /** Pixel (x, y) of the mirror image is pixel (w-1-x, y) of the source. */
  lemma FlipHLaw(g: Grid)
    ensures forall y, x | 0 <= y < |g| && 0 <= x < |g[y]| :: FlipH(g)[y][x] == g[y][|g[y]| - 1 - x]
  {
  }

  lemma InvertInvolution(g: Grid)
    ensures Invert(Invert(g)) == g
  {
    var r := Invert(Invert(g));
    forall y | 0 <= y < |g| ensures r[y] == g[y] {
      assert |r[y]| == |g[y]|;
    }
  }

  lemma InvertKeepsBinary(g: Grid)
    requires Binary(g)
    ensures Binary(Invert(g))
    ensures forall y, x | 0 <= y < |g| && 0 <= x < |g[y]| :: InkAt(Invert(g), x, y) <==> !InkAt(g, x, y)
  {
  }

  lemma FlipHInvolution(g: Grid)
    ensures FlipH(FlipH(g)) == g
  {
    var r := FlipH(FlipH(g));
    forall y | 0 <= y < |g| ensures r[y] == g[y] {
      assert |r[y]| == |g[y]|;
    }
  }

  lemma FlipVInvolution(g: Grid)
    ensures FlipV(FlipV(g)) == g
  {
  }

  /** The two flips commute: horizontal-then-vertical equals vertical-then-horizontal. */
  lemma FlipsCommute(g: Grid)
    ensures FlipV(FlipH(g)) == FlipH(FlipV(g))
  {
  }

  // ---------------------------------------------------------------------
  // Rotation
  // ---------------------------------------------------------------------

  predicate ValidAngle(angle: int) {
    angle == 90 || angle == 180 || angle == 270
  }

  /** Quarter turn clockwise: source (x, y) goes to row x, column h-1-y. */
  function Rot90(g: Grid): (r: Grid)
    requires Rectangular(g)
    ensures |g| > 0 && Width(g) > 0 ==> Rect(r, |g|, Width(g))
    ensures forall row, col | 0 <= row < Width(g) && 0 <= col < |g| :: r[row][col] == g[|g| - 1 - col][row]
  {
    var w, h := Width(g), |g|;
    seq(w, row requires 0 <= row < w => seq(h, col requires 0 <= col < h => g[h - 1 - col][row]))
  }

  /** Three quarter turns clockwise: source (x, y) goes to row w-1-x, column y. */
  function Rot270(g: Grid): (r: Grid)
    requires Rectangular(g)
    ensures |g| > 0 && Width(g) > 0 ==> Rect(r, |g|, Width(g))
    ensures forall row, col | 0 <= row < Width(g) && 0 <= col < |g| :: r[row][col] == g[col][Width(g) - 1 - row]
  {
    var w, h := Width(g), |g|;
    seq(w, row requires 0 <= row < w => seq(h, col requires 0 <= col < h => g[col][w - 1 - row]))
  }

  /** Clockwise rotation as `op_rotate` performs it. */
  function Rotated(g: Grid, angle: int): (r: Result<Grid, EditError>)
    requires Rectangular(g)
    ensures r.Err? <==> !ValidAngle(angle)
    ensures r.Err? ==> r.error == BadAngle(angle)
    ensures r.Ok? ==> Rectangular(r.value)
    ensures r.Ok? && (angle == 180 || Width(g) == 0 || |g| == 0) ==> Rect(r.value, Width(g), |g|)
    ensures r.Ok? && angle != 180 && Width(g) > 0 && |g| > 0 ==> Rect(r.value, |g|, Width(g))
  {
    if !ValidAngle(angle) then Err(BadAngle(angle))
    else if Width(g) == 0 || |g| == 0 then Ok(g)
    else if angle == 180 then Ok(FlipV(FlipH(g)))
    else if angle == 90 then Ok(Rot90(g))
    else Ok(Rot270(g))
  }

  method Rotate(bits: Grid, angle: int) returns (r: Result<Grid, EditError>)
    requires Rectangular(bits)
    ensures r == Rotated(bits, angle)
  {
    if !ValidAngle(angle) {
      return Err(BadAngle(angle));
    }
    var w, h := Width(bits), |bits|;
    if w == 0 || h == 0 {
      return Ok(bits);
    }
    if angle == 180 {
      return Ok(FlipV(FlipH(bits)));
    }
    var newW, newH := h, w;
    var out := new int[newH, newW]((_, _) => 0);
    if angle == 90 {
      for y := 0 to h
        invariant forall i, j | 0 <= i < newH && 0 <= j < newW ::
          out[i, j] == if newW - 1 - j < y then bits[newW - 1 - j][i] else 0
      {
        for x := 0 to w
          invariant forall i, j | 0 <= i < newH && 0 <= j < newW ::
            out[i, j] == if newW - 1 - j < y || (newW - 1 - j == y && i < x) then bits[newW - 1 - j][i] else 0
        {
          out[x, newW - 1 - y] := bits[y][x];
        }
      }
      GridExt(ToGrid(out), Rot90(bits));
      r := Ok(ToGrid(out));
    } else {
      for y := 0 to h
        invariant forall i, j | 0 <= i < newH && 0 <= j < newW ::
          out[i, j] == if j < y then bits[j][newH - 1 - i] else 0
      {
        for x := 0 to w
          invariant forall i, j | 0 <= i < newH && 0 <= j < newW ::
            out[i, j] == if j < y || (j == y && newH - 1 - i < x) then bits[j][newH - 1 - i] else 0
        {
          out[newH - 1 - x, y] := bits[y][x];
        }
      }
      GridExt(ToGrid(out), Rot270(bits));
      r := Ok(ToGrid(out));
    }
  }

  /** An empty grid (no rows, or rows of width 0) comes back unchanged from every valid angle. */
  lemma RotateEmptyIsIdentity(g: Grid, angle: int)
    requires Rectangular(g) && ValidAngle(angle)
    requires Width(g) == 0 || |g| == 0
    ensures Rotated(g, angle) == Ok(g)
  {
  }

  /** A quarter turn: the result is h wide and w high, and source (x, y) lands at column h-1-y of row x. */
  lemma Rotate90Law(g: Grid)
    requires Rectangular(g) && Width(g) > 0 && |g| > 0
    ensures Rotated(g, 90).Ok?
    ensures Rect(Rotated(g, 90).value, |g|, Width(g))
    ensures forall y, x | 0 <= y < |g| && 0 <= x < Width(g) :: Rotated(g, 90).value[x][|g| - 1 - y] == g[y][x]
  {
  }

  /** Three quarter turns: source (x, y) lands at column y of row w-1-x. */
  lemma Rotate270Law(g: Grid)
    requires Rectangular(g) && Width(g) > 0 && |g| > 0
    ensures Rotated(g, 270).Ok?
    ensures Rect(Rotated(g, 270).value, |g|, Width(g))
    ensures forall y, x | 0 <= y < |g| && 0 <= x < Width(g) :: Rotated(g, 270).value[Width(g) - 1 - x][y] == g[y][x]
  {
  }

  /** A half turn is the two flips, in either order. */
  lemma Rotate180IsFlips(g: Grid)
    requires Rectangular(g)
    ensures Rotated(g, 180) == Ok(FlipV(FlipH(g)))
    ensures Rotated(g, 180) == Ok(FlipH(FlipV(g)))
  {
    if Width(g) == 0 && |g| > 0 {
      GridExt(FlipV(FlipH(g)), g);
    }
    FlipsCommute(g);
  }

  lemma Rot90Rot90(g: Grid)
    requires Rectangular(g) && Width(g) > 0 && |g| > 0
    ensures Rot90(Rot90(g)) == FlipV(FlipH(g))
  {
    var r1 := Rot90(g);
    var r2 := Rot90(r1);
    var f := FlipV(FlipH(g));
    forall i, j | 0 <= i < |r2| && 0 <= j < |r2[i]| ensures r2[i][j] == f[i][j] {
      assert r2[i][j] == r1[|r1| - 1 - j][i];
    }
    GridExt(r2, f);
  }

  lemma Rot270AfterRot90(g: Grid)
    requires Rectangular(g) && Width(g) > 0 && |g| > 0
    ensures Rot270(Rot90(g)) == g
  {
    var r1 := Rot90(g);
    var a := Rot270(r1);
    forall i, j | 0 <= i < |a| && 0 <= j < |a[i]| ensures a[i][j] == g[i][j] {
      assert a[i][j] == r1[j][|g| - 1 - i];
    }
    GridExt(a, g);
  }

  lemma Rot90AfterRot270(g: Grid)
    requires Rectangular(g) && Width(g) > 0 && |g| > 0
    ensures Rot90(Rot270(g)) == g
  {
    var r1 := Rot270(g);
    var b := Rot90(r1);
    forall i, j | 0 <= i < |b| && 0 <= j < |b[i]| ensures b[i][j] == g[i][j] {
      assert b[i][j] == r1[Width(g) - 1 - j][i];
    }
    GridExt(b, g);
  }

  /** Two quarter turns make a half turn. */
  lemma TwoQuarterTurns(g: Grid)
    requires Rectangular(g)
    ensures Rotated(Rotated(g, 90).value, 90) == Rotated(g, 180)
  {
    if Width(g) > 0 && |g| > 0 {
      Rot90Rot90(g);
    }
  }

  /** Two half turns give back the input. */
  lemma TwoHalfTurns(g: Grid)
    requires Rectangular(g)
    ensures Rotated(Rotated(g, 180).value, 180) == Ok(g)
  {
    if Width(g) > 0 && |g| > 0 {
      var f := FlipV(FlipH(g));
      FlipsCommute(g);
      assert FlipV(FlipH(f)) == FlipV(FlipH(FlipH(FlipV(g))));
      FlipHInvolution(FlipV(g));
      FlipVInvolution(g);
    }
  }

  /** Four quarter turns give back the input. */
  lemma FourQuarterTurns(g: Grid)
    requires Rectangular(g)
    ensures Rotated(Rotated(Rotated(Rotated(g, 90).value, 90).value, 90).value, 90) == Ok(g)
  {
    TwoQuarterTurns(g);
    var half := Rotated(g, 180).value;
    TwoQuarterTurns(half);
    TwoHalfTurns(g);
  }

  /** A quarter turn clockwise and one counterclockwise undo each other. */
  lemma QuarterTurnsCancel(g: Grid)
    requires Rectangular(g)
    ensures Rotated(Rotated(g, 90).value, 270) == Ok(g)
    ensures Rotated(Rotated(g, 270).value, 90) == Ok(g)
  {
    if Width(g) > 0 && |g| > 0 {
      Rot270AfterRot90(g);
      Rot90AfterRot270(g);
    }
  }

  // ---------------------------------------------------------------------
  // Trim to the ink bounding box
  // ---------------------------------------------------------------------

  predicate RowHasInk(row: seq<int>) {
    exists x | 0 <= x < |row| :: row[x] == 1
  }

  predicate ColumnHasInk(g: Grid, x: int) {
    exists y | 0 <= y < |g| :: InkAt(g, x, y)
  }

  predicate HasInk(g: Grid) {
    exists y | 0 <= y < |g| :: RowHasInk(g[y])
  }

  /** The first row at or below `from` that holds ink, or |g| when there is none. */
  function FirstInkRow(g: Grid, from: nat): (r: nat)
    requires from <= |g|
    ensures from <= r <= |g|
    ensures r < |g| ==> RowHasInk(g[r])
    ensures forall y | from <= y < r :: !RowHasInk(g[y])
    decreases |g| - from
  {
    if from == |g| then |g|
    else if RowHasInk(g[from]) then from
    else FirstInkRow(g, from + 1)
  }

  /** The last row above `upto` that holds ink, or -1 when there is none. */
  function LastInkRow(g: Grid, upto: nat): (r: int)
    requires upto <= |g|
    ensures -1 <= r < upto
    ensures r >= 0 ==> RowHasInk(g[r])
    ensures forall y | r < y < upto :: !RowHasInk(g[y])
  {
    if upto == 0 then -1
    else if RowHasInk(g[upto - 1]) then upto - 1
    else LastInkRow(g, upto - 1)
  }

  /** The first column at or right of `from` that holds ink, or Width(g) when there is none. */
  function FirstInkColumn(g: Grid, from: nat): (r: nat)
    requires from <= Width(g)
    ensures from <= r <= Width(g)
    ensures r < Width(g) ==> ColumnHasInk(g, r)
    ensures forall x | from <= x < r :: !ColumnHasInk(g, x)
    decreases Width(g) - from
  {
    if from == Width(g) then Width(g)
    else if ColumnHasInk(g, from) then from
    else FirstInkColumn(g, from + 1)
  }

  /** The last column left of `upto` that holds ink, or -1 when there is none. */
  function LastInkColumn(g: Grid, upto: nat): (r: int)
    requires upto <= Width(g)
    ensures -1 <= r < upto
    ensures r >= 0 ==> ColumnHasInk(g, r)
    ensures forall x | r < x < upto :: !ColumnHasInk(g, x)
  {
    if upto == 0 then -1
    else if ColumnHasInk(g, upto - 1) then upto - 1
    else LastInkColumn(g, upto - 1)
  }

  /**
   * [x0, x1] x [y0, y1] is the tight bounding box of the ink: it lies inside the
   * grid, every ink pixel is inside it, and each of its four edges touches ink.
   */
  predicate TightBox(g: Grid, x0: int, x1: int, y0: int, y1: int) {
    && Rectangular(g)
    && 0 <= x0 <= x1 < Width(g) && 0 <= y0 <= y1 < |g|
    && (forall y, x | 0 <= y < |g| && 0 <= x < Width(g) && g[y][x] == 1 :: x0 <= x <= x1 && y0 <= y <= y1)
    && RowHasInk(g[y0]) && RowHasInk(g[y1]) && ColumnHasInk(g, x0) && ColumnHasInk(g, x1)
  }

  /** The rows y0..y1 and, in each, the columns x0..x1 (inclusive). */
  function Crop(g: Grid, x0: int, x1: int, y0: int, y1: int): (r: Grid)
    requires Rectangular(g) && 0 <= x0 <= x1 < Width(g) && 0 <= y0 <= y1 < |g|
    ensures Rect(r, x1 - x0 + 1, y1 - y0 + 1)
    ensures forall k, j | 0 <= k <= y1 - y0 && 0 <= j <= x1 - x0 :: r[k][j] == g[y0 + k][x0 + j]
  {
    seq(y1 - y0 + 1, k requires 0 <= k <= y1 - y0 => g[y0 + k][x0 .. x1 + 1])
  }

  /** A box that is tight is the one the searches find. */
  lemma TightBoxIsFound(g: Grid, x0: int, x1: int, y0: int, y1: int)
    requires TightBox(g, x0, x1, y0, y1)
    ensures FirstInkRow(g, 0) == y0 && LastInkRow(g, |g|) == y1
    ensures FirstInkColumn(g, 0) == x0 && LastInkColumn(g, Width(g)) == x1
  {
    TightRowsFound(g, x0, x1, y0, y1);
    TightColumnsFound(g, x0, x1, y0, y1);
  }

  /** The row searches stop at the top and bottom edges of a tight box. */
  lemma TightRowsFound(g: Grid, x0: int, x1: int, y0: int, y1: int)
    requires TightBox(g, x0, x1, y0, y1)
    ensures FirstInkRow(g, 0) == y0 && LastInkRow(g, |g|) == y1
  {
  }

  /** The column searches stop at the left and right edges of a tight box. */
  lemma TightColumnsFound(g: Grid, x0: int, x1: int, y0: int, y1: int)
    requires TightBox(g, x0, x1, y0, y1)
    ensures FirstInkColumn(g, 0) == x0 && LastInkColumn(g, Width(g)) == x1
  {
  }

  /** The box the searches find, as (left, right, top, bottom). */
  function InkBox(g: Grid): (int, int, int, int)
    requires Rectangular(g)
  {
    (FirstInkColumn(g, 0), LastInkColumn(g, Width(g)), FirstInkRow(g, 0), LastInkRow(g, |g|))
  }

  /** On a grid with ink, the searches find the tight bounding box. */
  lemma InkBoxIsTight(g: Grid)
    requires Rectangular(g) && HasInk(g)
    ensures var b := InkBox(g); TightBox(g, b.0, b.1, b.2, b.3)
  {
    var top := FirstInkRow(g, 0);
    var x :| 0 <= x < |g[top]| && g[top][x] == 1;
    assert InkAt(g, x, top);
    forall y, x | 0 <= y < |g| && 0 <= x < Width(g) && g[y][x] == 1
      ensures FirstInkColumn(g, 0) <= x <= LastInkColumn(g, Width(g))
      ensures top <= y <= LastInkRow(g, |g|)
    {
      assert RowHasInk(g[y]);
      assert InkAt(g, x, y);
      assert ColumnHasInk(g, x);
    }
  }

  /** Every grid with ink has a tight bounding box. */
  lemma SomeTightBox(g: Grid) returns (x0: int, x1: int, y0: int, y1: int)
    requires Rectangular(g) && HasInk(g)
    ensures TightBox(g, x0, x1, y0, y1)
  {
    InkBoxIsTight(g);
    var b := InkBox(g);
    x0, x1, y0, y1 := b.0, b.1, b.2, b.3;
  }

  /**
   * Trim as `op_trim` performs it: an empty grid, or one without ink, comes
   * back unchanged; otherwise the rows and columns of the ink bounding box.
   */
  function Trimmed(g: Grid): (r: Grid)
    requires Rectangular(g)
    ensures Rectangular(r)
    ensures !HasInk(g) ==> r == g
  {
    if Width(g) == 0 || |g| == 0 || !HasInk(g) then g
    else
      var b := InkBox(g);
      InkBoxIsTight(g);
      Crop(g, b.0, b.1, b.2, b.3)
  }

  /** The crop of a tight box still shows ink at the top row of the box. */
  lemma TrimKeepsInk(g: Grid, x0: int, x1: int, y0: int, y1: int)
    requires TightBox(g, x0, x1, y0, y1)
    ensures HasInk(Crop(g, x0, x1, y0, y1))
  {
    var c := Crop(g, x0, x1, y0, y1);
    var x :| 0 <= x < |g[y0]| && g[y0][x] == 1;
    assert c[0][x - x0] == 1;
    assert RowHasInk(c[0]);
  }

  /** Whatever box is tight, trimming cuts out exactly that box. */
  lemma TrimmedIsBoxContent(g: Grid, x0: int, x1: int, y0: int, y1: int)
    requires TightBox(g, x0, x1, y0, y1)
    ensures Trimmed(g) == Crop(g, x0, x1, y0, y1)
  {
    var x :| 0 <= x < |g[y0]| && g[y0][x] == 1;
    assert HasInk(g);
    TightBoxIsFound(g, x0, x1, y0, y1);
  }

  /** Pixels scanned so far: all earlier rows, and the first x pixels of row y. */
  predicate Scanned(y: int, x: int, yy: int, xx: int) {
    yy < y || (yy == y && xx < x)
  }

  /** No ink in the rows above y. */
  ghost predicate NoInkAbove(g: Grid, y: int)
    requires Rectangular(g)
  {
    forall yy, xx | 0 <= yy < y && yy < |g| && 0 <= xx < Width(g) :: g[yy][xx] != 1
  }

  /** No ink in the first x pixels of row y. */
  ghost predicate NoInkLeft(g: Grid, y: int, x: int)
    requires Rectangular(g)
  {
    0 <= y < |g| ==> forall xx | 0 <= xx < x && xx < Width(g) :: g[y][xx] != 1
  }

  /** Every ink pixel in the rows above y lies in [minX, maxX] x [minY, maxY]. */
  ghost predicate BoundsAbove(g: Grid, y: int, minX: int, maxX: int, minY: int, maxY: int)
    requires Rectangular(g)
  {
    forall yy, xx | 0 <= yy < y && yy < |g| && 0 <= xx < Width(g) && g[yy][xx] == 1 ::
      minX <= xx <= maxX && minY <= yy <= maxY
  }

  /** Every ink pixel among the first x of row y lies in [minX, maxX] x [minY, maxY]. */
  ghost predicate BoundsLeft(g: Grid, y: int, x: int, minX: int, maxX: int, minY: int, maxY: int)
    requires Rectangular(g)
  {
    0 <= y < |g| ==> forall xx | 0 <= xx < x && xx < Width(g) && g[y][xx] == 1 :: minX <= xx <= maxX && minY <= y <= maxY
  }

  /**
   * The state of the bounding-box scan in `op_trim` after the pixels before
   * (x, y): with no ink seen the bounds keep their start values; otherwise they
   * bound every ink pixel seen, and each is attained by a seen ink pixel (the
   * ghost witnesses a, b, c, d).
   */
  ghost predicate ScanState(g: Grid, y: int, x: int, minX: int, maxX: int, minY: int, maxY: int,
                            a: int, b: int, c: int, d: int)
    requires Rectangular(g)
  {
    var w, h := Width(g), |g|;
    && (maxX < 0 ==>
          && minX == w && minY == h && maxY == -1
          && NoInkAbove(g, y) && NoInkLeft(g, y, x))
    && (maxX >= 0 ==>
          && 0 <= minX <= maxX < w && 0 <= minY <= maxY < h
          && BoundsAbove(g, y, minX, maxX, minY, maxY) && BoundsLeft(g, y, x, minX, maxX, minY, maxY)
          && 0 <= a < h && Scanned(y, x, a, minX) && g[a][minX] == 1
          && 0 <= b < h && Scanned(y, x, b, maxX) && g[b][maxX] == 1
          && 0 <= c < w && Scanned(y, x, minY, c) && g[minY][c] == 1
          && 0 <= d < w && Scanned(y, x, maxY, d) && g[maxY][d] == 1)
  }

  method Trim(bits: Grid) returns (r: Grid)
    requires Rectangular(bits)
    ensures r == Trimmed(bits)
  {
    var w, h := Width(bits), |bits|;
    if w == 0 || h == 0 {
      return bits;
    }
    var minX, minY := w, h;
    var maxX, maxY := -1, -1;
    ghost var a, b, c, d := 0, 0, 0, 0;
    for y := 0 to h
      invariant ScanState(bits, y, 0, minX, maxX, minY, maxY, a, b, c, d)
    {
      var row := bits[y];
      for x := 0 to w
        invariant ScanState(bits, y, x, minX, maxX, minY, maxY, a, b, c, d)
      {
        if row[x] == 1 {
          if x < minX {
            minX, a := x, y;
          }
          if x > maxX {
            maxX, b := x, y;
          }
          if y < minY {
            minY, c := y, x;
          }
          if y > maxY {
            maxY, d := y, x;
          }
        }
      }
      RowScanned(bits, y, minX, maxX, minY, maxY, a, b, c, d);
    }
    ScanFinished(bits, minX, maxX, minY, maxY, a, b, c, d);
    if maxX < 0 {
      return bits;
    }
    TrimmedIsBoxContent(bits, minX, maxX, minY, maxY);
    r := seq(maxY - minY + 1, k requires 0 <= k <= maxY - minY => bits[minY + k][minX .. maxX + 1]);
  }

  /** Past the last pixel of row y is before the first pixel of row y + 1. */
  lemma RowScanned(g: Grid, y: int, minX: int, maxX: int, minY: int, maxY: int, a: int, b: int, c: int, d: int)
    requires Rectangular(g) && 0 <= y < |g|
    requires ScanState(g, y, Width(g), minX, maxX, minY, maxY, a, b, c, d)
    ensures ScanState(g, y + 1, 0, minX, maxX, minY, maxY, a, b, c, d)
  {
    if maxX < 0 {
      assert NoInkAbove(g, y + 1) by {
        forall yy, xx | 0 <= yy < y + 1 && yy < |g| && 0 <= xx < Width(g) ensures g[yy][xx] != 1 {
          if yy == y {
            assert NoInkLeft(g, y, Width(g));
          }
        }
      }
    } else {
      assert BoundsAbove(g, y + 1, minX, maxX, minY, maxY) by {
        forall yy, xx | 0 <= yy < y + 1 && yy < |g| && 0 <= xx < Width(g) && g[yy][xx] == 1
          ensures minX <= xx <= maxX && minY <= yy <= maxY
        {
          if yy == y {
            assert BoundsLeft(g, y, Width(g), minX, maxX, minY, maxY);
          }
        }
      }
    }
  }

  /** After the whole grid: no ink at all, or the four bounds form the tight box. */
  lemma ScanFinished(g: Grid, minX: int, maxX: int, minY: int, maxY: int, a: int, b: int, c: int, d: int)
    requires Rectangular(g) && Width(g) > 0 && |g| > 0
    requires ScanState(g, |g|, 0, minX, maxX, minY, maxY, a, b, c, d)
    ensures maxX < 0 ==> !HasInk(g)
    ensures maxX >= 0 ==> TightBox(g, minX, maxX, minY, maxY)
  {
    if maxX < 0 {
      forall yy | 0 <= yy < |g| ensures !RowHasInk(g[yy]) {
        assert NoInkAbove(g, |g|);
      }
    } else {
      assert RowHasInk(g[minY]) && RowHasInk(g[maxY]);
      assert InkAt(g, minX, a) && InkAt(g, maxX, b);
      assert BoundsAbove(g, |g|, minX, maxX, minY, maxY);
    }
  }

  /** The cut-out content of a tight box is its own tight box. */
  lemma CropOfTightBox(g: Grid, x0: int, x1: int, y0: int, y1: int)
    requires TightBox(g, x0, x1, y0, y1)
    ensures var r := Crop(g, x0, x1, y0, y1); TightBox(r, 0, Width(r) - 1, 0, |r| - 1)
  {
    CropRowInk(g, x0, x1, y0, y1, y0);
    CropRowInk(g, x0, x1, y0, y1, y1);
    CropColumnInk(g, x0, x1, y0, y1, x0);
    CropColumnInk(g, x0, x1, y0, y1, x1);
  }

  /** A row of a tight box that holds ink keeps it in the crop. */
  lemma CropRowInk(g: Grid, x0: int, x1: int, y0: int, y1: int, y: int)
    requires TightBox(g, x0, x1, y0, y1) && y0 <= y <= y1 && RowHasInk(g[y])
    ensures RowHasInk(Crop(g, x0, x1, y0, y1)[y - y0])
  {
    var x :| 0 <= x < |g[y]| && g[y][x] == 1;
    assert Crop(g, x0, x1, y0, y1)[y - y0][x - x0] == 1;
  }

  /** A column of a tight box that holds ink keeps it in the crop. */
  lemma CropColumnInk(g: Grid, x0: int, x1: int, y0: int, y1: int, x: int)
    requires TightBox(g, x0, x1, y0, y1) && x0 <= x <= x1 && ColumnHasInk(g, x)
    ensures ColumnHasInk(Crop(g, x0, x1, y0, y1), x - x0)
  {
    var y :| 0 <= y < |g| && InkAt(g, x, y);
    assert InkAt(Crop(g, x0, x1, y0, y1), x - x0, y - y0);
  }

  /** After trimming a grid with ink, its top and bottom rows and its left and right columns each touch ink. */
  lemma TrimmedEdgesHaveInk(g: Grid)
    requires Rectangular(g) && HasInk(g)
    ensures var r := Trimmed(g); TightBox(r, 0, Width(r) - 1, 0, |r| - 1)
  {
    var x0, x1, y0, y1 := SomeTightBox(g);
    TrimmedIsBoxContent(g, x0, x1, y0, y1);
    CropOfTightBox(g, x0, x1, y0, y1);
  }

  /** A grid whose own edges are its tight box is left as it is by trimming. */
  lemma TightGridIsTrimmed(r: Grid)
    requires TightBox(r, 0, Width(r) - 1, 0, |r| - 1)
    ensures Trimmed(r) == r
  {
    TrimmedIsBoxContent(r, 0, Width(r) - 1, 0, |r| - 1);
    GridExt(Crop(r, 0, Width(r) - 1, 0, |r| - 1), r);
  }

  /** Trimming twice is trimming once. */
  lemma TrimIdempotent(g: Grid)
    requires Rectangular(g)
    ensures Trimmed(Trimmed(g)) == Trimmed(g)
  {
    if HasInk(g) {
      TrimmedEdgesHaveInk(g);
      TightGridIsTrimmed(Trimmed(g));
    }
  }

  // ---------------------------------------------------------------------
  // Pad with white margins
  // ---------------------------------------------------------------------

  /** Row k of the padded grid: white above and below the source rows, source row k - top framed by white otherwise. */
  function PaddedRow(g: Grid, left: nat, right: nat, top: nat, k: int): (row: seq<int>)
    requires Rectangular(g)
    ensures |row| == left + Width(g) + right
  {
    if top <= k < top + |g| then Zeros(left) + g[k - top] + Zeros(right)
    else Zeros(left + Width(g) + right)
  }

  /** The grid with `top` white rows above, `bottom` below, and each row framed by white pixels. */
  function Padded(g: Grid, left: nat, right: nat, top: nat, bottom: nat): (r: Grid)
    requires Rectangular(g)
    ensures Rectangular(r) && |r| == top + |g| + bottom
    ensures |r| > 0 ==> Width(r) == left + Width(g) + right
  {
    seq(top + |g| + bottom, k requires 0 <= k < top + |g| + bottom => PaddedRow(g, left, right, top, k))
  }

  /** Padding as `op_pad` performs it, with its check on the margins. */
  function PadResult(g: Grid, left: int, right: int, top: int, bottom: int): (r: Result<Grid, EditError>)
    requires Rectangular(g)
    ensures r.Err? <==> left < 0 || right < 0 || top < 0 || bottom < 0
    ensures r.Err? ==> r.error == NegativePad
  {
    if left < 0 || right < 0 || top < 0 || bottom < 0 then Err(NegativePad)
    else Ok(Padded(g, left, right, top, bottom))
  }

  method Pad(bits: Grid, left: int, right: int, top: int, bottom: int) returns (r: Result<Grid, EditError>)
    requires Rectangular(bits)
    ensures r == PadResult(bits, left, right, top, bottom)
  {
    if left < 0 || right < 0 || top < 0 || bottom < 0 {
      return Err(NegativePad);
    }
    var w, h := Width(bits), |bits|;
    var newW := w + left + right;
    var rowWhite := Zeros(newW);
    var out := seq(top, _ => rowWhite);
    for y := 0 to h
      invariant |out| == top + y
      invariant forall k | 0 <= k < top + y :: out[k] == PaddedRow(bits, left, right, top, k)
    {
      out := out + [Zeros(left) + bits[y] + Zeros(right)];
    }
    out := out + seq(bottom, _ => rowWhite);
    assert out == Padded(bits, left, right, top, bottom);
    return Ok(out);
  }

  /**
   * p is g framed by white: source pixel (x, y) sits at (x + left, y + top)
   * of p, and every other pixel of p is white.
   */
  predicate FramedBy(p: Grid, g: Grid, left: nat, top: nat) {
    && Rectangular(p) && Rectangular(g)
    && top + |g| <= |p| && (|g| > 0 ==> left + Width(g) <= Width(p))
    && (forall y, x | 0 <= y < |g| && 0 <= x < Width(g) :: p[y + top][x + left] == g[y][x])
    && (forall y, x | 0 <= y < |p| && 0 <= x < Width(p) && !(top <= y < top + |g| && left <= x < left + Width(g)) ::
          p[y][x] == 0)
  }

  /** Padding places the source at (left, top) inside a white frame of the stated size. */
  lemma PadPlacement(g: Grid, left: nat, right: nat, top: nat, bottom: nat)
    requires Rectangular(g)
    ensures var r := Padded(g, left, right, top, bottom);
      && |r| == top + |g| + bottom
      && (|r| > 0 ==> Width(r) == left + Width(g) + right)
      && FramedBy(r, g, left, top)
  {
    var r := Padded(g, left, right, top, bottom);
    forall y, x | 0 <= y < |g| && 0 <= x < Width(g) ensures r[y + top][x + left] == g[y][x] {
      assert r[y + top] == Zeros(left) + g[y] + Zeros(right);
    }
    forall y, x | 0 <= y < |r| && 0 <= x < Width(r) && !(top <= y < top + |g| && left <= x < left + Width(g))
      ensures r[y][x] == 0
    {
      if top <= y < top + |g| {
        assert r[y] == Zeros(left) + g[y - top] + Zeros(right);
      }
    }
  }

  /** Padding by four zero margins changes nothing. */
  lemma PadZeroIsIdentity(g: Grid)
    requires Rectangular(g)
    ensures Padded(g, 0, 0, 0, 0) == g
  {
    var r := Padded(g, 0, 0, 0, 0);
    forall y | 0 <= y < |g| ensures r[y] == g[y] {
      assert r[y] == Zeros(0) + g[y] + Zeros(0);
    }
  }

  /** A white frame shifts a tight box by (left, top) and keeps it tight. */
  lemma FramedTightBox(p: Grid, g: Grid, left: nat, top: nat, x0: int, x1: int, y0: int, y1: int)
    requires FramedBy(p, g, left, top) && TightBox(g, x0, x1, y0, y1)
    ensures TightBox(p, x0 + left, x1 + left, y0 + top, y1 + top)
  {
    var xt :| 0 <= xt < |g[y0]| && g[y0][xt] == 1;
    assert p[y0 + top][xt + left] == 1;
    var xb :| 0 <= xb < |g[y1]| && g[y1][xb] == 1;
    assert p[y1 + top][xb + left] == 1;
    var yl :| 0 <= yl < |g| && InkAt(g, x0, yl);
    assert InkAt(p, x0 + left, yl + top);
    var yr :| 0 <= yr < |g| && InkAt(g, x1, yr);
    assert InkAt(p, x1 + left, yr + top);
    forall y, x | 0 <= y < |p| && 0 <= x < Width(p) && p[y][x] == 1
      ensures x0 + left <= x <= x1 + left && y0 + top <= y <= y1 + top
    {
      assert top <= y < top + |g| && left <= x < left + Width(g);
      assert g[y - top][x - left] == 1;
    }
  }

  /** The box (a..b, c..d) of the framed grid, the source box shifted by the frame, holds the same pixels. */
  lemma FramedCrop(p: Grid, g: Grid, left: nat, top: nat, x0: int, x1: int, y0: int, y1: int,
                   a: int, b: int, c: int, d: int)
    requires FramedBy(p, g, left, top)
    requires 0 <= x0 <= x1 < Width(g) && 0 <= y0 <= y1 < |g|
    requires a == x0 + left && b == x1 + left && c == y0 + top && d == y1 + top
    ensures Crop(p, a, b, c, d) == Crop(g, x0, x1, y0, y1)
  {
    GridExt(Crop(p, a, b, c, d), Crop(g, x0, x1, y0, y1));
  }

  /** Trimming a framed grid cuts out the shifted box (a..b, c..d), whose pixels are those of the source's tight box. */
  lemma FramedTrimBox(p: Grid, g: Grid, left: nat, top: nat, x0: int, x1: int, y0: int, y1: int,
                      a: int, b: int, c: int, d: int)
    requires FramedBy(p, g, left, top) && TightBox(g, x0, x1, y0, y1)
    requires a == x0 + left && b == x1 + left && c == y0 + top && d == y1 + top
    ensures Trimmed(p) == Crop(g, x0, x1, y0, y1)
  {
    FramedTightBox(p, g, left, top, x0, x1, y0, y1);
    TrimmedIsBoxContent(p, a, b, c, d);
    FramedCrop(p, g, left, top, x0, x1, y0, y1, a, b, c, d);
  }

  /** A white frame adds no ink, so the framed grid trims to the same grid as the source. */
  lemma FramedTrim(p: Grid, g: Grid, left: nat, top: nat)
    requires FramedBy(p, g, left, top) && HasInk(g)
    ensures Trimmed(p) == Trimmed(g)
  {
    var x0, x1, y0, y1 := SomeTightBox(g);
    FramedTrimBox(p, g, left, top, x0, x1, y0, y1, x0 + left, x1 + left, y0 + top, y1 + top);
    TrimmedIsBoxContent(g, x0, x1, y0, y1);
  }

  /** Padding adds only white, so trimming afterwards recovers the same ink bounding box content. */
  lemma PadThenTrim(g: Grid, left: nat, right: nat, top: nat, bottom: nat)
    requires Rectangular(g) && HasInk(g)
    ensures Trimmed(Padded(g, left, right, top, bottom)) == Trimmed(g)
  {
    PadPlacement(g, left, right, top, bottom);
    FramedTrim(Padded(g, left, right, top, bottom), g, left, top);
  }

  // ---------------------------------------------------------------------
  // Point draws
  // ---------------------------------------------------------------------

  /** A draw names a pixel inside a w x h grid and one of the two known actions. */
  predicate DrawOk(d: Draw, w: int, h: int) {
    0 <= d.x < w && 0 <= d.y < h && (d.action == "set" || d.action == "clear")
  }

  /** The value a well-formed draw writes. */
  function DrawValue(d: Draw): (v: int)
    ensures d.action == "set" ==> v == 1
    ensures d.action != "set" ==> v == 0
  {
    if d.action == "set" then 1 else 0
  }

  /** The error a draw that is not well-formed raises: the bounds are checked before the action. */
  function DrawFault(d: Draw, w: int, h: int): (e: EditError)
    requires !DrawOk(d, w, h)
    ensures !(0 <= d.x < w && 0 <= d.y < h) ==> e == DrawOutOfBounds(d.x, d.y, w, h)
    ensures (0 <= d.x < w && 0 <= d.y < h) ==> e == BadDrawAction(d.action)
  {
    if !(0 <= d.x < w && 0 <= d.y < h) then DrawOutOfBounds(d.x, d.y, w, h) else BadDrawAction(d.action)
  }

  /** One draw applied to the grid g, checked against g's own size. */
  function DrawOne(g: Grid, d: Draw): (r: Result<Grid, EditError>)
    requires Rectangular(g)
    ensures r.Err? <==> !DrawOk(d, Width(g), |g|)
    ensures r.Err? ==> r.error == DrawFault(d, Width(g), |g|)
    ensures r.Ok? ==> Rect(r.value, Width(g), |g|)
    ensures r.Ok? ==> forall y, x | 0 <= y < |g| && 0 <= x < Width(g) ::
              r.value[y][x] == if x == d.x && y == d.y then DrawValue(d) else g[y][x]
  {
    if !DrawOk(d, Width(g), |g|) then Err(DrawFault(d, Width(g), |g|))
    else Ok(g[d.y := g[d.y][d.x := DrawValue(d)]])
  }

  /** The draws applied in order; the first draw that is not well-formed stops everything with its error. */
  function Drawn(g: Grid, draws: seq<Draw>): (r: Result<Grid, EditError>)
    requires Rectangular(g)
    ensures r.Ok? ==> Rect(r.value, Width(g), |g|)
    ensures r.Err? ==> r.error.DrawOutOfBounds? || r.error.BadDrawAction?
    decreases |draws|
  {
    if |draws| == 0 then Ok(g)
    else
      var prev := Drawn(g, draws[..|draws| - 1]);
      if prev.Err? then prev else DrawOne(prev.value, draws[|draws| - 1])
  }

  method DrawAll(bits: Grid, draws: seq<Draw>) returns (r: Result<Grid, EditError>)
    requires Rectangular(bits)
    ensures r == Drawn(bits, draws)
  {
    var w, h := Width(bits), |bits|;
    var out := bits;
    for i := 0 to |draws|
      invariant Drawn(bits, draws[..i]) == Ok(out)
    {
      assert draws[..i + 1][..i] == draws[..i];
      var d := draws[i];
      if !(0 <= d.x < w && 0 <= d.y < h) {
        DrawnErrorSticks(bits, draws[..i + 1], draws[i + 1..]);
        assert draws[..i + 1] + draws[i + 1..] == draws;
        return Err(DrawOutOfBounds(d.x, d.y, w, h));
      }
      if d.action == "set" {
        out := out[d.y := out[d.y][d.x := 1]];
      } else if d.action == "clear" {
        out := out[d.y := out[d.y][d.x := 0]];
      } else {
        DrawnErrorSticks(bits, draws[..i + 1], draws[i + 1..]);
        assert draws[..i + 1] + draws[i + 1..] == draws;
        return Err(BadDrawAction(d.action));
      }
    }
    assert draws[..|draws|] == draws;
    return Ok(out);
  }

  /** Once a prefix of the draws fails, any longer list fails with the same error. */
  lemma {:induction false} DrawnErrorSticks(g: Grid, draws: seq<Draw>, more: seq<Draw>)
    requires Rectangular(g) && Drawn(g, draws).Err?
    ensures Drawn(g, draws + more) == Drawn(g, draws)
    decreases |more|
  {
    if |more| > 0 {
      var all := draws + more;
      assert all[..|all| - 1] == draws + more[..|more| - 1];
      DrawnErrorSticks(g, draws, more[..|more| - 1]);
    } else {
      assert draws + more == draws;
    }
  }

  /**
   * The draws fail exactly when one of them is not well-formed, and then with
   * the error of the first such draw; otherwise they succeed.
   */
  lemma {:induction false} DrawnFailsAtFirstBadDraw(g: Grid, draws: seq<Draw>)
    requires Rectangular(g)
    ensures (forall i | 0 <= i < |draws| :: DrawOk(draws[i], Width(g), |g|)) <==> Drawn(g, draws).Ok?
    ensures Drawn(g, draws).Err? ==>
      exists i | 0 <= i < |draws| ::
        && !DrawOk(draws[i], Width(g), |g|)
        && (forall j | 0 <= j < i :: DrawOk(draws[j], Width(g), |g|))
        && Drawn(g, draws).error == DrawFault(draws[i], Width(g), |g|)
    decreases |draws|
  {
    if |draws| > 0 {
      var n := |draws| - 1;
      var init := draws[..n];
      DrawnFailsAtFirstBadDraw(g, init);
      assert forall i | 0 <= i < n :: init[i] == draws[i];
      if Drawn(g, init).Err? {
        var i :| 0 <= i < |init| && !DrawOk(init[i], Width(g), |g|)
          && (forall j | 0 <= j < i :: DrawOk(init[j], Width(g), |g|))
          && Drawn(g, init).error == DrawFault(init[i], Width(g), |g|);
        assert !DrawOk(draws[i], Width(g), |g|);
      } else if Drawn(g, draws).Err? {
        assert !DrawOk(draws[n], Width(g), |g|);
      }
    }
  }

  /** The pixel (x, y) holds the value of the last draw on it, or its old value when no draw names it. */
  function LastDrawAt(draws: seq<Draw>, x: int, y: int, before: int): (v: int)
    ensures (forall i | 0 <= i < |draws| :: !(draws[i].x == x && draws[i].y == y)) ==> v == before
    decreases |draws|
  {
    if |draws| == 0 then before
    else
      var d := draws[|draws| - 1];
      if d.x == x && d.y == y then DrawValue(d) else LastDrawAt(draws[..|draws| - 1], x, y, before)
  }

  /** After successful draws every pixel holds the value of the last draw naming it, or its old value. */
  lemma {:induction false} DrawnPixels(g: Grid, draws: seq<Draw>)
    requires Rectangular(g) && Drawn(g, draws).Ok?
    ensures forall y, x | 0 <= y < |g| && 0 <= x < Width(g) ::
      Drawn(g, draws).value[y][x] == LastDrawAt(draws, x, y, g[y][x])
    decreases |draws|
  {
    if |draws| > 0 {
      DrawnPixels(g, draws[..|draws| - 1]);
    }
  }

  /** A draw outside a 3 x 2 grid is refused with the grid's size in the error. */
  lemma DrawOutsideIsRefused()
    ensures Drawn([[0, 1, 0], [1, 0, 1]], [Draw(5, 0, "set")]) == Err(DrawOutOfBounds(5, 0, 3, 2))
  {
  }

  // ---------------------------------------------------------------------
  // The edit pipeline
  // ---------------------------------------------------------------------

  /** Some margin is non-zero: the condition under which the pipeline pads. */
  predicate AnyMargin(o: EditOptions) {
    o.padLeft != 0 || o.padRight != 0 || o.padTop != 0 || o.padBottom != 0
  }

  /** The stages up to and including the flips, which cannot fail. */
  function Flipped(g: Grid, o: EditOptions): (r: Grid)
    requires Rectangular(g)
    ensures Rect(r, Width(g), |g|)
  {
    var a := if o.invert then Invert(g) else g;
    var b := if o.flipH then FlipH(a) else a;
    if o.flipV then FlipV(b) else b
  }

  /** The rotation stage: skipped when no angle is given. */
  function RotateStage(c: Grid, o: EditOptions): (r: Result<Grid, EditError>)
    requires Rectangular(c)
    ensures r.Ok? ==> Rectangular(r.value)
    ensures r.Err? ==> o.rotate.Some? && r.error == BadAngle(o.rotate.value)
  {
    if o.rotate.Some? then Rotated(c, o.rotate.value) else Ok(c)
  }

  /** The trim stage. */
  function TrimStage(d: Grid, o: EditOptions): (r: Grid)
    requires Rectangular(d)
    ensures Rectangular(r)
    ensures !o.trim ==> r == d
  {
    if o.trim then Trimmed(d) else d
  }

  /** The pad stage: run only when some margin is non-zero (a negative one included). */
  function PadStage(e: Grid, o: EditOptions): (r: Result<Grid, EditError>)
    requires Rectangular(e)
    ensures r.Ok? ==> Rectangular(r.value)
    ensures r.Err? ==> r.error == NegativePad
  {
    if AnyMargin(o) then PadResult(e, o.padLeft, o.padRight, o.padTop, o.padBottom) else Ok(e)
  }

  /** The draw stage: run only when there are draws. */
  function DrawStage(f: Grid, o: EditOptions): (r: Result<Grid, EditError>)
    requires Rectangular(f)
    ensures r.Ok? ==> Rectangular(r.value)
    ensures r.Err? ==> r.error.DrawOutOfBounds? || r.error.BadDrawAction?
  {
    if |o.draws| > 0 then Drawn(f, o.draws) else Ok(f)
  }

  /**
   * The edits in their fixed order: invert, flip-h, flip-v, rotate, trim, pad,
   * draws. A stage that is switched off passes its input through; the first
   * stage that fails ends the pipeline with its error.
   */
  function Edited(g: Grid, o: EditOptions): (r: Result<Grid, EditError>)
    requires Rectangular(g)
    ensures r.Ok? ==> Rectangular(r.value)
  {
    var d := RotateStage(Flipped(g, o), o);
    if d.Err? then d
    else
      var f := PadStage(TrimStage(d.value, o), o);
      if f.Err? then f
      else DrawStage(f.value, o)
  }

  method ApplyEdits(bits: Grid, o: EditOptions) returns (r: Result<Grid, EditError>)
    requires Rectangular(bits)
    ensures r == Edited(bits, o)
  {
    var out := bits;
    if o.invert {
      out := Invert(out);
    }
    if o.flipH {
      out := FlipH(out);
    }
    if o.flipV {
      out := FlipV(out);
    }
    if o.rotate.Some? {
      var rotated := Rotate(out, o.rotate.value);
      if rotated.Err? {
        return rotated;
      }
      out := rotated.value;
    }
    if o.trim {
      out := Trim(out);
    }
    if AnyMargin(o) {
      var padded := Pad(out, o.padLeft, o.padRight, o.padTop, o.padBottom);
      if padded.Err? {
        return padded;
      }
      out := padded.value;
    }
    if |o.draws| > 0 {
      r := DrawAll(out, o.draws);
      return;
    }
    return Ok(out);
  }

  /** The pad guard only skips work: when all four margins are zero, padding would change nothing. */
  lemma PadGuardIsNeutral(e: Grid, o: EditOptions)
    requires Rectangular(e)
    ensures PadStage(e, o) == PadResult(e, o.padLeft, o.padRight, o.padTop, o.padBottom)
  {
    if !AnyMargin(o) {
      PadZeroIsIdentity(e);
    }
  }

  /** The draw guard only skips work: an empty list of draws changes nothing. */
  lemma DrawGuardIsNeutral(f: Grid, o: EditOptions)
    requires Rectangular(f)
    ensures DrawStage(f, o) == Drawn(f, o.draws)
  {
  }

  /** The pipeline fails with a bad angle exactly when a rotation outside 90, 180, 270 is asked for. */
  lemma EditedRejectsBadAngle(g: Grid, o: EditOptions)
    requires Rectangular(g)
    ensures (Edited(g, o).Err? && Edited(g, o).error.BadAngle?) <==> (o.rotate.Some? && !ValidAngle(o.rotate.value))
    ensures o.rotate.Some? && !ValidAngle(o.rotate.value) ==> Edited(g, o) == Err(BadAngle(o.rotate.value))
  {
  }

  /** With a valid or no rotation, the pipeline fails on the margins exactly when one is negative. */
  lemma EditedRejectsNegativePad(g: Grid, o: EditOptions)
    requires Rectangular(g)
    requires o.rotate.Some? ==> ValidAngle(o.rotate.value)
    ensures Edited(g, o) == Err(NegativePad) <==>
      (o.padLeft < 0 || o.padRight < 0 || o.padTop < 0 || o.padBottom < 0)
  {
  }

  /** With every stage switched off the grid comes back unchanged. */
  lemma NoEditsIsIdentity(g: Grid)
    requires Rectangular(g)
    ensures Edited(g, EditOptions(false, false, false, None, false, 0, 0, 0, 0, [])) == Ok(g)
  {
  }

  /** Inverting, mirroring and padding one column on the left turns the 3 x 2 sample into a 4 x 2 grid. */
  lemma InvertFlipPadExample()
    ensures Edited([[0, 1, 0], [1, 0, 1]], EditOptions(true, true, false, None, false, 1, 0, 0, 0, [])) ==
      Ok([[0, 1, 0, 1], [0, 0, 1, 0]])
  {
    var g: Grid := [[0, 1, 0], [1, 0, 1]];
    var o := EditOptions(true, true, false, None, false, 1, 0, 0, 0, []);
    SampleInverted();
    SampleMirrored();
    assert Flipped(g, o) == [[1, 0, 1], [0, 1, 0]];
    SamplePadded();
  }

  /** The sample's inverse. */
  lemma SampleInverted()
    ensures Invert([[0, 1, 0], [1, 0, 1]]) == [[1, 0, 1], [0, 1, 0]]
  {
    var inv := Invert([[0, 1, 0], [1, 0, 1]]);
    assert inv[0] == [1, 0, 1] && inv[1] == [0, 1, 0];
  }

  /** The inverted sample is its own mirror image. */
  lemma SampleMirrored()
    ensures FlipH([[1, 0, 1], [0, 1, 0]]) == [[1, 0, 1], [0, 1, 0]]
  {
    var inv: Grid := [[1, 0, 1], [0, 1, 0]];
    var fl := FlipH(inv);
    assert fl[0] == Reversed(inv[0]) == [1, 0, 1];
    assert fl[1] == Reversed(inv[1]) == [0, 1, 0];
  }

  /** One white column on the left of the mirrored sample. */
  lemma SamplePadded()
    ensures Padded([[1, 0, 1], [0, 1, 0]], 1, 0, 0, 0) == [[0, 1, 0, 1], [0, 0, 1, 0]]
  {
    var inv: Grid := [[1, 0, 1], [0, 1, 0]];
    var p := Padded(inv, 1, 0, 0, 0);
    assert Zeros(1) == [0] && Zeros(0) == [];
    assert |p| == 2;
    assert p[0] == PaddedRow(inv, 1, 0, 0, 0) == [0] + [1, 0, 1] == [0, 1, 0, 1];
    assert p[1] == PaddedRow(inv, 1, 0, 0, 1) == [0] + [0, 1, 0] == [0, 0, 1, 0];
  }
}
