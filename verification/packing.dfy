/**
 * Byte packing of a bit grid (src/bmp2c/core.py): row-major and vertical-page
 * layouts, both least significant bit first, the closed-form byte count of
 * each, and the grouping of converted images by size.
 *
 * Each packer is a method proved equal to a specification function that
 * builds the layout row by row (or band by band); the lemmas locate every
 * byte by a closed formula over its index and state the pixel-to-bit law,
 * the length, the zero padding bits and the inverse unpacking.
 */
module Packing {
  import opened BitGrids
  import opened Results
  import opened Arith

  // ---------------------------------------------------------------------
  // Bytes
  // ---------------------------------------------------------------------

  /** The mask of bit i, spelled out so that proofs need no integer-to-bit-vector conversion. */
  function Bit(i: nat): bv8
    requires i < 8
  {
    if i == 0 then 0x01 else if i == 1 then 0x02 else if i == 2 then 0x04 else if i == 3 then 0x08
    else if i == 4 then 0x10 else if i == 5 then 0x20 else if i == 6 then 0x40 else 0x80
  }

  /** The table is the shift the packers write. */
  lemma BitIsShift(i: nat)
    requires i < 8
    ensures Bit(i) == 1 << i
  {
  }

  /** Bit i of b (0 = least significant) is set. */
  predicate BitSet(b: bv8, i: nat)
    requires i < 8
  {
    b & Bit(i) != 0
  }

  /** The byte whose bit i is set when `ink[i]` holds: bits 0 .. |ink| - 1, or-ed in in order. */
  function PackByte(ink: seq<bool>): (b: bv8)
    requires |ink| <= 8
    ensures forall i | 0 <= i < 8 :: BitSet(b, i) <==> i < |ink| && ink[i]
    decreases |ink|
  {
    if |ink| == 0 then 0
    else
      var n := |ink| - 1;
      var prev := PackByte(ink[..n]);
      PackStep(ink, prev);
      prev | (if ink[n] then Bit(n) else 0)
  }

  /** Adding the last flag of `ink` to the byte packed from the others packs all of `ink`. */
  lemma PackStep(ink: seq<bool>, prev: bv8)
    requires 0 < |ink| <= 8
    requires forall i | 0 <= i < 8 :: BitSet(prev, i) <==> i < |ink| - 1 && ink[..|ink| - 1][i]
    ensures var n := |ink| - 1; var c := prev | (if ink[n] then Bit(n) else 0);
      forall i | 0 <= i < 8 :: BitSet(c, i) <==> i < |ink| && ink[i]
  {
    var n := |ink| - 1;
    var c := prev | (if ink[n] then Bit(n) else 0);
    forall i | 0 <= i < 8 ensures BitSet(c, i) <==> i < |ink| && ink[i] {
      OneBit(prev, n, i, ink[n]);
      if i < n {
        assert ink[..n][i] == ink[i];
      }
    }
  }

  /** Or-ing in bit n (or nothing) sets bit n as asked and leaves every other bit as it was. */
  lemma OneBit(b: bv8, n: nat, i: nat, on: bool)
    requires n < 8 && i < 8
    ensures var c := b | (if on then Bit(n) else 0);
      BitSet(c, i) <==> if i == n then on || BitSet(b, i) else BitSet(b, i)
  {
  }

  /** Two bytes with the same eight bits are the same byte. */
  lemma SameBitsSameByte(a: bv8, b: bv8)
    requires forall i | 0 <= i < 8 :: BitSet(a, i) <==> BitSet(b, i)
    ensures a == b
  {
    assert BitSet(a, 0) == BitSet(b, 0) && BitSet(a, 1) == BitSet(b, 1);
    assert BitSet(a, 2) == BitSet(b, 2) && BitSet(a, 3) == BitSet(b, 3);
    assert BitSet(a, 4) == BitSet(b, 4) && BitSet(a, 5) == BitSet(b, 5);
    assert BitSet(a, 6) == BitSet(b, 6) && BitSet(a, 7) == BitSet(b, 7);
  }

  // ---------------------------------------------------------------------
  // Byte counts
  // ---------------------------------------------------------------------

  /** Number of 8-pixel groups covering n pixels, written as the source does: (n + 7) // 8. */
  function Groups8(n: int): int {
    (n + 7) / 8
  }

  /** For n > 0 the groups cover n with fewer than 8 pixels to spare. */
  lemma Groups8Bounds(n: int)
    requires n > 0
    ensures Groups8(n) > 0 && 8 * Groups8(n) - 8 < n <= 8 * Groups8(n)
  {
  }

  /** The pack kinds the converter knows. */
  datatype PackError = UnknownPackKind(kind: string)

  /** Bytes one image takes: ceil(w/8) per row for "row", w per band of 8 rows for "page". */
  function BytesPerImage(width: int, height: int, kind: string): (r: Result<int, PackError>)
    ensures r.Err? <==> kind != "row" && kind != "page"
    ensures r.Err? ==> r.error == UnknownPackKind(kind)
  {
    if kind == "row" then Ok(Groups8(width) * height)
    else if kind == "page" then Ok(width * Groups8(height))
    else Err(UnknownPackKind(kind))
  }

  // ---------------------------------------------------------------------
  // Row-major packing
  // ---------------------------------------------------------------------

  /** The eight flags of the group of row pixels starting at column x: column x + i exists (is below w) and is ink. */
  function RowGroup(row: seq<int>, w: int, x: int): (ink: seq<bool>)
    requires 0 <= x && w <= |row|
    ensures |ink| == 8
    ensures forall i | 0 <= i < 8 :: ink[i] <==> x + i < w && row[x + i] == 1
  {
    seq(8, i requires 0 <= i < 8 => x + i < w && row[x + i] == 1)
  }

  /** The bytes of one row of width w: ceil(w/8) groups, group k holding columns 8k .. 8k + 7. */
  function RowBytes(row: seq<int>, w: int): (r: seq<bv8>)
    requires 0 <= w <= |row|
    ensures |r| == Groups8(w)
    ensures forall k | 0 <= k < Groups8(w) :: r[k] == PackByte(RowGroup(row, w, 8 * k))
  {
    seq(Groups8(w), k requires 0 <= k < Groups8(w) => PackByte(RowGroup(row, w, 8 * k)))
  }

  /** The bytes of the first n rows, top row first. */
  function Rows(g: Grid, n: int): seq<bv8>
    requires Rectangular(g) && 0 <= n <= |g|
  {
    if n == 0 then [] else Rows(g, n - 1) + RowBytes(g[n - 1], Width(g))
  }

  /** The row-major layout: every row in turn, eight pixels to a byte, left-most pixel in bit 0. */
  function RowMajor(g: Grid): (r: seq<bv8>)
    requires Rectangular(g)
    ensures |r| == Groups8(Width(g)) * |g|
  {
    if Width(g) == 0 || |g| == 0 then []
    else
      RowsLength(g, |g|);
      Rows(g, |g|)
  }

  /** The inner loop of both packers: or in bit i for each of the eight flags that holds. */
  method PackGroup(ink: seq<bool>) returns (b: bv8)
    requires |ink| == 8
    ensures b == PackByte(ink)
  {
    b := 0;
    for i := 0 to 8
      invariant b == PackByte(ink[..i])
    {
      OrInNext(ink, i, b);
      if ink[i] {
        b := b | (1 << i);
      }
    }
    assert ink[..8] == ink;
  }

  /** One turn of the bit loop: or-ing in bit i when flag i holds packs one more flag. */
  lemma OrInNext(ink: seq<bool>, i: int, b: bv8)
    requires 0 <= i < |ink| <= 8 && b == PackByte(ink[..i])
    ensures (if ink[i] then b | (1 << i) else b) == PackByte(ink[..i + 1])
  {
    assert ink[..i + 1][..i] == ink[..i];
    BitIsShift(i);
  }

  method PackRowMajor(bits: Grid) returns (out: seq<bv8>)
    requires Rectangular(bits)
    ensures out == RowMajor(bits)
  {
    var height := |bits|;
    var width := Width(bits);
    if width == 0 || height == 0 {
      return [];
    }
    Groups8Bounds(width);
    out := [];
    for y := 0 to height
      invariant out == Rows(bits, y)
    {
      var row := bits[y];
      var x := 0;
      ghost var k := 0;
      while x < width
        invariant x == 8 * k && 0 <= k <= Groups8(width)
        invariant out == Rows(bits, y) + RowBytes(row, width)[..k]
      {
        var b := PackGroup(RowGroup(row, width, x));
        AppendNext(Rows(bits, y), RowBytes(row, width), k);
        out := out + [b];
        x, k := x + 8, k + 1;
      }
      WholePrefix(RowBytes(row, width), k);
    }
  }

  /** Appending element k of s after a + s[..k] gives a + s[..k + 1]. */
  lemma AppendNext(a: seq<bv8>, s: seq<bv8>, k: int)
    requires 0 <= k < |s|
    ensures a + s[..k] + [s[k]] == a + s[..k + 1]
  {
    assert s[..k + 1] == s[..k] + [s[k]];
  }

  /** The prefix as long as the sequence is the whole sequence. */
  lemma WholePrefix(s: seq<bv8>, n: int)
    requires n == |s|
    ensures s[..n] == s
  {
  }

  /** Slot k of block y sits at y * d + k, inside h blocks of d, and maps back to (y, k). */
  lemma Slot(y: int, k: int, d: int, h: int)
    requires 0 <= y < h && 0 <= k < d
    ensures (y * d + k) / d == y && (y * d + k) % d == k
    ensures 0 <= y * d + k < h * d
  {
    DivModOf(y, k, d);
    BlocksBelow(y, d, h);
  }

  /** y whole blocks of d and one more still fit in h blocks. */
  lemma BlocksBelow(y: int, d: int, h: int)
    requires 0 <= y < h && d > 0
    ensures 0 <= y * d && y * d + d <= h * d
  {
    var e := h - 1 - y;
    assert e * d >= 0;
    assert h * d == y * d + d + e * d;
  }

  /** n rows take n * ceil(w/8) bytes. */
  lemma {:induction false} RowsLength(g: Grid, n: int)
    requires Rectangular(g) && 0 <= n <= |g|
    ensures |Rows(g, n)| == n * Groups8(Width(g))
  {
    if n > 0 {
      RowsLength(g, n - 1);
      assert n * Groups8(Width(g)) == (n - 1) * Groups8(Width(g)) + Groups8(Width(g));
    }
  }

  /** Byte j = y * ceil(w/8) + k of the first n rows is byte k of row y. */
  lemma {:induction false} RowsAt(g: Grid, n: int, y: int, k: int, j: int)
    requires Rectangular(g) && 0 <= y < n <= |g| && 0 <= k < Groups8(Width(g))
    requires j == y * Groups8(Width(g)) + k
    ensures 0 <= j < |Rows(g, n)| && Rows(g, n)[j] == RowBytes(g[y], Width(g))[k]
  {
    RowsLength(g, n - 1);
    if y < n - 1 {
      RowsAt(g, n - 1, y, k, j);
      ConcatLeft(Rows(g, n - 1), RowBytes(g[n - 1], Width(g)), j);
    } else {
      ConcatRight(Rows(g, n - 1), RowBytes(g[y], Width(g)), k, j);
    }
  }

  // ---------------------------------------------------------------------
  // Vertical-page packing
  // ---------------------------------------------------------------------

  /** The eight flags of the column x of the band starting at row y0: row y0 + i exists (is below h) and is ink there. */
  function PageGroup(g: Grid, y0: int, x: int): (ink: seq<bool>)
    requires Rectangular(g) && 0 <= y0 && 0 <= x < Width(g)
    ensures |ink| == 8
    ensures forall i | 0 <= i < 8 :: ink[i] <==> y0 + i < |g| && g[y0 + i][x] == 1
  {
    seq(8, i requires 0 <= i < 8 => y0 + i < |g| && g[y0 + i][x] == 1)
  }

  /** The bytes of band b (rows 8b .. 8b + 7): one per column, top row of the band in bit 0. */
  function Band(g: Grid, b: int): (r: seq<bv8>)
    requires Rectangular(g) && 0 <= b
    ensures |r| == Width(g)
    ensures forall x | 0 <= x < Width(g) :: r[x] == PackByte(PageGroup(g, 8 * b, x))
  {
    seq(Width(g), x requires 0 <= x < Width(g) => PackByte(PageGroup(g, 8 * b, x)))
  }

  /** The bytes of the first n bands, top band first. */
  function Bands(g: Grid, n: int): seq<bv8>
    requires Rectangular(g) && 0 <= n
  {
    if n == 0 then [] else Bands(g, n - 1) + Band(g, n - 1)
  }

  /** The page layout: bands of 8 rows from the top, each band column by column from the left. */
  function PageMajor(g: Grid): (r: seq<bv8>)
    requires Rectangular(g)
    ensures |r| == Width(g) * Groups8(|g|)
  {
    if Width(g) == 0 || |g| == 0 then []
    else
      BandsLength(g, Groups8(|g|));
      Bands(g, Groups8(|g|))
  }

  method PackPageVertical(bits: Grid) returns (out: seq<bv8>)
    requires Rectangular(bits)
    ensures out == PageMajor(bits)
  {
    var height := |bits|;
    var width := Width(bits);
    if width == 0 || height == 0 {
      return [];
    }
    var pages := (height + 7) / 8;
    out := [];
    for page := 0 to pages
      invariant out == Bands(bits, page)
    {
      var y0 := page * 8;
      for x := 0 to width
        invariant out == Bands(bits, page) + Band(bits, page)[..x]
      {
        var b := PackGroup(PageGroup(bits, y0, x));
        BandAt(bits, page, y0, x);
        AppendNext(Bands(bits, page), Band(bits, page), x);
        out := out + [b];
      }
      WholePrefix(Band(bits, page), width);
    }
  }

  /** Byte x of band b packs column x from row y0 = 8b down. */
  lemma BandAt(g: Grid, b: int, y0: int, x: int)
    requires Rectangular(g) && 0 <= b && y0 == b * 8 && 0 <= x < Width(g)
    ensures Band(g, b)[x] == PackByte(PageGroup(g, y0, x))
  {
    assert y0 == 8 * b;
  }

  /** n bands take n * w bytes. */
  lemma {:induction false} BandsLength(g: Grid, n: int)
    requires Rectangular(g) && 0 <= n
    ensures |Bands(g, n)| == n * Width(g)
  {
    if n > 0 {
      BandsLength(g, n - 1);
      assert n * Width(g) == (n - 1) * Width(g) + Width(g);
    }
  }

  /** Byte j = b * w + x of the first n bands is byte x of band b. */
  lemma {:induction false} BandsAt(g: Grid, n: int, b: int, x: int, j: int)
    requires Rectangular(g) && 0 <= b < n && 0 <= x < Width(g)
    requires j == b * Width(g) + x
    ensures 0 <= j < |Bands(g, n)| && Bands(g, n)[j] == Band(g, b)[x]
  {
    BandsLength(g, n - 1);
    if b < n - 1 {
      BandsAt(g, n - 1, b, x, j);
      ConcatLeft(Bands(g, n - 1), Band(g, n - 1), j);
    } else {
      ConcatRight(Bands(g, n - 1), Band(g, b), x, j);
    }
  }

  /** An index into the first part of a concatenation reads the first part. */
  lemma ConcatLeft(a: seq<bv8>, b: seq<bv8>, j: int)
    requires 0 <= j < |a|
    ensures j < |a + b| && (a + b)[j] == a[j]
  {
  }

  /** Index |a| + k of a + b is index k of b. */
  lemma ConcatRight(a: seq<bv8>, b: seq<bv8>, k: int, j: int)
    requires 0 <= k < |b| && j == |a| + k
    ensures 0 <= j < |a + b| && (a + b)[j] == b[k]
  {
  }

  // ---------------------------------------------------------------------
  // What the layouts promise
  // ---------------------------------------------------------------------

  /** Both layouts take exactly the byte count `bytes_per_image` gives, and are empty exactly for an empty grid. */
  lemma PackedLengths(g: Grid)
    requires Rectangular(g)
    ensures |RowMajor(g)| == BytesPerImage(Width(g), |g|, "row").value
    ensures |PageMajor(g)| == BytesPerImage(Width(g), |g|, "page").value
    ensures |RowMajor(g)| == 0 <==> Width(g) == 0 || |g| == 0
    ensures |PageMajor(g)| == 0 <==> Width(g) == 0 || |g| == 0
  {
    if Width(g) > 0 && |g| > 0 {
      Groups8Bounds(Width(g));
      Groups8Bounds(|g|);
      AtLeastOnce(|g|, Groups8(Width(g)));
      AtLeastOnce(Groups8(|g|), Width(g));
    }
  }

  /**
   * Row layout: pixel (x, y) is bit x % 8 of byte y * ceil(w/8) + x / 8; the
   * bits for columns w .. 8 * ceil(w/8) - 1 past the right edge are 0.
   */
  lemma RowMajorPixel(g: Grid, x: int, y: int)
    requires Rectangular(g) && Width(g) > 0 && 0 <= y < |g|
    requires 0 <= x < 8 * Groups8(Width(g))
    ensures var j := y * Groups8(Width(g)) + x / 8;
      0 <= j < |RowMajor(g)| && (BitSet(RowMajor(g)[j], x % 8) <==> x < Width(g) && g[y][x] == 1)
  {
    var k, i := x / 8, x % 8;
    RowPixelAt(g, x, y, k, i, y * Groups8(Width(g)) + k);
  }

  /** The row-layout pixel law with group k, bit i and byte index j named. */
  lemma RowPixelAt(g: Grid, x: int, y: int, k: int, i: int, j: int)
    requires Rectangular(g) && Width(g) > 0 && 0 <= y < |g| && 0 <= x < 8 * Groups8(Width(g))
    requires k == x / 8 && i == x % 8 && j == y * Groups8(Width(g)) + k
    ensures 0 <= i < 8 && 0 <= j < |RowMajor(g)| && (BitSet(RowMajor(g)[j], i) <==> x < Width(g) && g[y][x] == 1)
  {
    RowFlag(g, x, y, k, i);
    RowBitAt(g, y, k, i, j);
  }

  /** Column x of a row is flag x % 8 of group x / 8. */
  lemma RowFlag(g: Grid, x: int, y: int, k: int, i: int)
    requires Rectangular(g) && 0 <= y < |g| && 0 <= x < 8 * Groups8(Width(g))
    requires k == x / 8 && i == x % 8
    ensures 0 <= k < Groups8(Width(g)) && 0 <= i < 8
    ensures RowGroup(g[y], Width(g), 8 * k)[i] <==> x < Width(g) && g[y][x] == 1
  {
    assert x == 8 * k + i;
  }

  /** Bit i of byte j = y * ceil(w/8) + k of the row layout is flag i of group k of row y. */
  lemma RowBitAt(g: Grid, y: int, k: int, i: int, j: int)
    requires Rectangular(g) && Width(g) > 0 && 0 <= y < |g| && 0 <= k < Groups8(Width(g)) && 0 <= i < 8
    requires j == y * Groups8(Width(g)) + k
    ensures 0 <= j < |RowMajor(g)| && (BitSet(RowMajor(g)[j], i) <==> RowGroup(g[y], Width(g), 8 * k)[i])
  {
    RowMajorAt(g, y, k, j);
    FlagBit(RowGroup(g[y], Width(g), 8 * k), i);
  }

  /** Bit i of a packed byte is flag i. */
  lemma FlagBit(ink: seq<bool>, i: int)
    requires |ink| == 8 && 0 <= i < 8
    ensures BitSet(PackByte(ink), i) <==> ink[i]
  {
  }

  /**
   * Page layout: pixel (x, y) is bit y % 8 of byte (y / 8) * w + x; the bits
   * for rows h .. 8 * ceil(h/8) - 1 below the bottom edge are 0.
   */
  lemma PageMajorPixel(g: Grid, x: int, y: int)
    requires Rectangular(g) && |g| > 0 && 0 <= x < Width(g)
    requires 0 <= y < 8 * Groups8(|g|)
    ensures var j := (y / 8) * Width(g) + x;
      0 <= j < |PageMajor(g)| && (BitSet(PageMajor(g)[j], y % 8) <==> y < |g| && g[y][x] == 1)
  {
    var b, i := y / 8, y % 8;
    PagePixelAt(g, x, y, b, i, b * Width(g) + x);
  }

  /** The page-layout pixel law with band b, bit i and byte index j named. */
  lemma PagePixelAt(g: Grid, x: int, y: int, b: int, i: int, j: int)
    requires Rectangular(g) && |g| > 0 && 0 <= x < Width(g) && 0 <= y < 8 * Groups8(|g|)
    requires b == y / 8 && i == y % 8 && j == b * Width(g) + x
    ensures 0 <= i < 8 && 0 <= j < |PageMajor(g)| && (BitSet(PageMajor(g)[j], i) <==> y < |g| && g[y][x] == 1)
  {
    PageFlag(g, x, y, b, i);
    PageBitAt(g, b, x, i, j);
  }

  /** Bit i of byte j = b * w + x of the page layout is flag i of band b's column x. */
  lemma PageBitAt(g: Grid, b: int, x: int, i: int, j: int)
    requires Rectangular(g) && |g| > 0 && 0 <= x < Width(g) && 0 <= b < Groups8(|g|) && 0 <= i < 8
    requires j == b * Width(g) + x
    ensures 0 <= j < |PageMajor(g)| && (BitSet(PageMajor(g)[j], i) <==> PageGroup(g, 8 * b, x)[i])
  {
    PageMajorAt(g, b, x, j);
    FlagBit(PageGroup(g, 8 * b, x), i);
  }

  /** Row y of the picture is flag y % 8 of band y / 8. */
  lemma PageFlag(g: Grid, x: int, y: int, b: int, i: int)
    requires Rectangular(g) && 0 <= x < Width(g) && 0 <= y < 8 * Groups8(|g|)
    requires b == y / 8 && i == y % 8
    ensures 0 <= b < Groups8(|g|) && 0 <= i < 8
    ensures PageGroup(g, 8 * b, x)[i] <==> y < |g| && g[y][x] == 1
  {
    assert y == 8 * b + i;
  }

  /** Byte x of band b in the page layout packs rows 8b .. 8b + 7 of column x. */
  lemma PageMajorAt(g: Grid, b: int, x: int, j: int)
    requires Rectangular(g) && |g| > 0 && 0 <= x < Width(g) && 0 <= b < Groups8(|g|)
    requires j == b * Width(g) + x
    ensures 0 <= j < |PageMajor(g)| && PageMajor(g)[j] == PackByte(PageGroup(g, 8 * b, x))
  {
    BandsAt(g, Groups8(|g|), b, x, j);
  }

  /** Reading a row-major buffer back: pixel (x, y) is 1 when its bit is set. */
  function RowUnpack(data: seq<bv8>, w: nat, h: nat): (g: Grid)
    requires |data| == h * Groups8(w)
    ensures Rect(g, if h > 0 then w else 0, h)
  {
    seq(h, y requires 0 <= y < h =>
      seq(w, x requires 0 <= x < w =>
        Slot(y, x / 8, Groups8(w), h);
        if BitSet(data[y * Groups8(w) + x / 8], x % 8) then 1 else 0))
  }

  /** Reading a page buffer back: pixel (x, y) is 1 when its bit is set. */
  function PageUnpack(data: seq<bv8>, w: nat, h: nat): (g: Grid)
    requires |data| == Groups8(h) * w
    ensures Rect(g, if h > 0 then w else 0, h)
  {
    seq(h, y requires 0 <= y < h =>
      seq(w, x requires 0 <= x < w =>
        Groups8Bounds(h);
        Slot(y / 8, x, w, Groups8(h));
        if BitSet(data[(y / 8) * w + x], y % 8) then 1 else 0))
  }

  /** Row packing loses nothing: unpacking gives back every 0/1 grid, the empty ones included. */
  lemma RowUnpackOfPack(g: Grid)
    requires Rectangular(g) && Binary(g)
    ensures RowUnpack(RowMajor(g), Width(g), |g|) == g
  {
    var u := RowUnpack(RowMajor(g), Width(g), |g|);
    forall y, x | 0 <= y < |g| && 0 <= x < Width(g) ensures u[y][x] == g[y][x] {
      RowUnpackAt(g, x, y);
    }
    GridExt(u, g);
  }

  /** One pixel of the row-layout round trip. */
  lemma RowUnpackAt(g: Grid, x: int, y: int)
    requires Rectangular(g) && Binary(g) && Width(g) > 0 && 0 <= y < |g| && 0 <= x < Width(g)
    ensures RowUnpack(RowMajor(g), Width(g), |g|)[y][x] == g[y][x]
  {
    Groups8Bounds(Width(g));
    RowUnpackPixel(RowMajor(g), Width(g), |g|, x, y);
    RowMajorPixel(g, x, y);
  }

  /** Pixel (x, y) of a row-major unpacking is bit x % 8 of byte y * ceil(w/8) + x / 8. */
  lemma RowUnpackPixel(data: seq<bv8>, w: nat, h: nat, x: int, y: int)
    requires |data| == h * Groups8(w) && 0 <= y < h && 0 <= x < w
    ensures var j := y * Groups8(w) + x / 8;
      0 <= j < |data| && RowUnpack(data, w, h)[y][x] == if BitSet(data[j], x % 8) then 1 else 0
  {
    Slot(y, x / 8, Groups8(w), h);
  }

  /** Page packing loses nothing: unpacking gives back every 0/1 grid, the empty ones included. */
  lemma PageUnpackOfPack(g: Grid)
    requires Rectangular(g) && Binary(g)
    ensures PageUnpack(PageMajor(g), Width(g), |g|) == g
  {
    var u := PageUnpack(PageMajor(g), Width(g), |g|);
    forall y, x | 0 <= y < |g| && 0 <= x < Width(g) ensures u[y][x] == g[y][x] {
      PageUnpackAt(g, x, y);
    }
    GridExt(u, g);
  }

  /** One pixel of the page-layout round trip. */
  lemma PageUnpackAt(g: Grid, x: int, y: int)
    requires Rectangular(g) && Binary(g) && Width(g) > 0 && 0 <= y < |g| && 0 <= x < Width(g)
    ensures PageUnpack(PageMajor(g), Width(g), |g|)[y][x] == g[y][x]
  {
    Groups8Bounds(|g|);
    PageUnpackPixel(PageMajor(g), Width(g), |g|, x, y);
    PageMajorPixel(g, x, y);
  }

  /** Pixel (x, y) of a page unpacking is bit y % 8 of byte (y / 8) * w + x. */
  lemma PageUnpackPixel(data: seq<bv8>, w: nat, h: nat, x: int, y: int)
    requires |data| == Groups8(h) * w && 0 <= y < h && 0 <= x < w
    ensures var j := (y / 8) * w + x;
      0 <= j < |data| && PageUnpack(data, w, h)[y][x] == if BitSet(data[j], y % 8) then 1 else 0
  {
    Groups8Bounds(h);
    Slot(y / 8, x, w, Groups8(h));
  }

  // ---------------------------------------------------------------------
  // Worked cases
  // ---------------------------------------------------------------------

  /** Bit i of the mask of bit j is set exactly when i = j. */
  lemma BitOfMask(j: nat, i: nat)
    requires j < 8 && i < 8
    ensures BitSet(Bit(j), i) <==> i == j
  {
  }

  /** An 8 x 8 grid with ink on the diagonal packs, row by row, to the eight single-bit masks. */
  lemma DiagonalPacksToMasks()
    ensures var g := seq(8, y requires 0 <= y < 8 => seq(8, x requires 0 <= x < 8 => if x == y then 1 else 0));
      RowMajor(g) == [0x01, 0x02, 0x04, 0x08, 0x10, 0x20, 0x40, 0x80]
    ensures BytesPerImage(8, 8, "row") == Ok(8)
  {
    var g := seq(8, y requires 0 <= y < 8 => seq(8, x requires 0 <= x < 8 => if x == y then 1 else 0));
    var r := RowMajor(g);
    assert Groups8(8) == 1;
    PackedLengths(g);
    forall j | 0 <= j < 8 ensures r[j] == Bit(j) {
      RowMajorAt(g, j, 0, j);
      forall i | 0 <= i < 8 ensures BitSet(r[j], i) <==> BitSet(Bit(j), i) {
        BitOfMask(j, i);
      }
      SameBitsSameByte(r[j], Bit(j));
    }
  }

  /** The byte packed from eight flags is the byte whose bits are those flags. */
  lemma PackByteIs(ink: seq<bool>, c: bv8)
    requires |ink| == 8 && forall i | 0 <= i < 8 :: ink[i] <==> BitSet(c, i)
    ensures PackByte(ink) == c
  {
    SameBitsSameByte(PackByte(ink), c);
  }

  /** Byte k of row y in the row layout packs columns 8k .. 8k + 7 of that row. */
  lemma RowMajorAt(g: Grid, y: int, k: int, j: int)
    requires Rectangular(g) && Width(g) > 0 && 0 <= y < |g| && 0 <= k < Groups8(Width(g))
    requires j == y * Groups8(Width(g)) + k
    ensures 0 <= j < |RowMajor(g)| && RowMajor(g)[j] == PackByte(RowGroup(g[y], Width(g), 8 * k))
  {
    RowsAt(g, |g|, y, k, j);
  }

  /** The first row of the 10 x 2 case: columns 0 and 1 inked give 0x03, then 0x00. */
  lemma TenByTwoFirstRow(row: seq<int>)
    requires row == [1, 1, 0, 0, 0, 0, 0, 0, 0, 0]
    ensures PackByte(RowGroup(row, 10, 0)) == 0x03 && PackByte(RowGroup(row, 10, 8)) == 0x00
  {
    forall i | 0 <= i < 8 ensures BitSet(0x03, i) <==> i < 2 {
      BitOfMask(0, i);
      BitOfMask(1, i);
    }
    PackByteIs(RowGroup(row, 10, 0), 0x03);
    PackByteIs(RowGroup(row, 10, 8), 0x00);
  }

  /** The second row of the 10 x 2 case: column 9 inked gives 0x00, then 0x02. */
  lemma TenByTwoSecondRow(row: seq<int>)
    requires row == [0, 0, 0, 0, 0, 0, 0, 0, 0, 1]
    ensures PackByte(RowGroup(row, 10, 0)) == 0x00 && PackByte(RowGroup(row, 10, 8)) == 0x02
  {
    forall i | 0 <= i < 8 ensures BitSet(0x02, i) <==> i == 1 {
      BitOfMask(1, i);
    }
    PackByteIs(RowGroup(row, 10, 0), 0x00);
    PackByteIs(RowGroup(row, 10, 8), 0x02);
  }

  /** A 10 x 2 grid needs two bytes per row; columns 8 and 9 land in bits 0 and 1 of the second byte. */
  lemma TenByTwoPacks()
    ensures RowMajor([[1, 1, 0, 0, 0, 0, 0, 0, 0, 0], [0, 0, 0, 0, 0, 0, 0, 0, 0, 1]]) == [0x03, 0x00, 0x00, 0x02]
    ensures BytesPerImage(10, 2, "row") == Ok(4)
    ensures BytesPerImage(10, 2, "page") == Ok(10)
  {
    var g: Grid := [[1, 1, 0, 0, 0, 0, 0, 0, 0, 0], [0, 0, 0, 0, 0, 0, 0, 0, 0, 1]];
    assert Groups8(10) == 2;
    RowMajorAt(g, 0, 0, 0);
    RowMajorAt(g, 0, 1, 1);
    RowMajorAt(g, 1, 0, 2);
    RowMajorAt(g, 1, 1, 3);
    TenByTwoFirstRow(g[0]);
    TenByTwoSecondRow(g[1]);
  }

  // ---------------------------------------------------------------------
  // Grouping converted images by size
  // ---------------------------------------------------------------------

  /** A converted image: its C symbol, its size after the edits, its packed bytes and its file stem. */
  datatype ImageResult = ImageResult(symbol: string, width: int, height: int, data: seq<bv8>, stem: string)

  /** The grouping key: (width, height). */
  function SizeOf(r: ImageResult): (int, int) {
    (r.width, r.height)
  }

  /** The results of size k, in their incoming order. */
  function WithSize(rs: seq<ImageResult>, k: (int, int)): (s: seq<ImageResult>)
    ensures |s| <= |rs|
    ensures forall j | 0 <= j < |s| :: SizeOf(s[j]) == k
    decreases |rs|
  {
    if |rs| == 0 then []
    else
      var last := rs[|rs| - 1];
      if SizeOf(last) == k then WithSize(rs[..|rs| - 1], k) + [last] else WithSize(rs[..|rs| - 1], k)
  }

  /** The distinct sizes in order of first appearance: the key order of the source's dictionary. */
  function SizesInOrder(rs: seq<ImageResult>): (ks: seq<(int, int)>)
    ensures forall i, j | 0 <= i < j < |ks| :: ks[i] != ks[j]
    ensures forall k :: k in ks <==> exists i | 0 <= i < |rs| :: SizeOf(rs[i]) == k
    decreases |rs|
  {
    if |rs| == 0 then []
    else
      var init := rs[..|rs| - 1];
      var last := rs[|rs| - 1];
      assert forall i | 0 <= i < |init| :: init[i] == rs[i];
      var ks := SizesInOrder(init);
      if SizeOf(last) in ks then ks else ks + [SizeOf(last)]
  }

  /** The first key is the size of the first result: the group the single-matrix output takes. */
  lemma {:induction false} FirstSizeFirst(rs: seq<ImageResult>)
    requires |rs| > 0
    ensures |SizesInOrder(rs)| > 0 && SizesInOrder(rs)[0] == SizeOf(rs[0])
    decreases |rs|
  {
    if |rs| > 1 {
      var init := rs[..|rs| - 1];
      FirstSizeFirst(init);
      assert init[0] == rs[0];
    }
  }

  /** A size that no result has gets an empty group. */
  lemma {:induction false} WithAbsentSize(rs: seq<ImageResult>, k: (int, int))
    requires forall i | 0 <= i < |rs| :: SizeOf(rs[i]) != k
    ensures WithSize(rs, k) == []
    decreases |rs|
  {
    if |rs| > 0 {
      WithAbsentSize(rs[..|rs| - 1], k);
    }
  }

  method GroupBySize(results: seq<ImageResult>) returns (groups: map<(int, int), seq<ImageResult>>, order: seq<(int, int)>)
    ensures order == SizesInOrder(results)
    ensures forall k :: k in groups <==> k in order
    ensures forall k | k in groups :: groups[k] == WithSize(results, k)
  {
    groups := map[];
    order := [];
    for i := 0 to |results|
      invariant order == SizesInOrder(results[..i])
      invariant forall k :: k in groups <==> k in order
      invariant forall k | k in groups :: groups[k] == WithSize(results[..i], k)
    {
      var r := results[i];
      var key := (r.width, r.height);
      SizesStep(results, i);
      if key in groups {
        groups := groups[key := groups[key] + [r]];
      } else {
        WithAbsentSize(results[..i], key);
        groups := groups[key := [r]];
        order := order + [key];
      }
      forall k | k in groups
        ensures groups[k] == WithSize(results[..i + 1], k)
      {
        WithSizeStep(results, i, k);
      }
    }
    assert results[..|results|] == results;
  }

  /** One more result either repeats a known size or adds its size at the end of the order. */
  lemma SizesStep(rs: seq<ImageResult>, i: int)
    requires 0 <= i < |rs|
    ensures var ks := SizesInOrder(rs[..i]);
      SizesInOrder(rs[..i + 1]) == if SizeOf(rs[i]) in ks then ks else ks + [SizeOf(rs[i])]
  {
    assert rs[..i + 1][..i] == rs[..i];
  }

  /** One more result joins the end of the group of its own size and leaves the other groups alone. */
  lemma WithSizeStep(rs: seq<ImageResult>, i: int, k: (int, int))
    requires 0 <= i < |rs|
    ensures WithSize(rs[..i + 1], k) == if SizeOf(rs[i]) == k then WithSize(rs[..i], k) + [rs[i]] else WithSize(rs[..i], k)
  {
    assert rs[..i + 1][..i] == rs[..i];
  }

  /** Every result lies in the group of its own size and in no other group. */
  lemma {:induction false} EachResultInOneGroup(rs: seq<ImageResult>, i: int, k: (int, int))
    requires 0 <= i < |rs|
    ensures SizeOf(rs[i]) in SizesInOrder(rs)
    ensures rs[i] in WithSize(rs, k) <==> k == SizeOf(rs[i])
    decreases |rs|
  {
    var s := WithSize(rs, k);
    if rs[i] in s {
      var j :| 0 <= j < |s| && s[j] == rs[i];
    }
    if k == SizeOf(rs[i]) && i < |rs| - 1 {
      EachResultInOneGroup(rs[..|rs| - 1], i, k);
    }
  }

  /** Grouping keeps the incoming order: the group of a concatenation is the concatenation of the groups. */
  lemma {:induction false} WithSizeAppend(a: seq<ImageResult>, b: seq<ImageResult>, k: (int, int))
    ensures WithSize(a + b, k) == WithSize(a, k) + WithSize(b, k)
    decreases |b|
  {
    if |b| == 0 {
      assert a + b == a;
    } else {
      var ab := a + b;
      assert ab[..|ab| - 1] == a + b[..|b| - 1];
      WithSizeAppend(a, b[..|b| - 1], k);
    }
  }
}
