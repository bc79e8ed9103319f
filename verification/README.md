# bmp2c pixel-grid core, modelled in Dafny

bmp2c turns 1-bit bitmaps into C source. The model covers its pixel-grid pipeline:

- the geometric edits that may be applied to a decoded picture: invert, horizontal and vertical flips, clockwise rotation by 90/180/270, trim to the ink bounding box, white padding, point draws, and the fixed-order pipeline `apply_edits` that chains them;
- the two byte packers:
  - row-major, eight columns to a byte, left-most pixel in bit 0;
  - vertical pages of eight rows as an SSD1306 display expects them, top row in bit 0;
- the closed-form byte count `bytes_per_image`;
- the grouping of converted images by size;
- the text helpers that make C identifiers, macro prefixes and the hex listing of the bytes;
- the bitmap editor's grid helpers: move by whole pixels, nearest-neighbour resize, and painting one pixel with the pen, eraser or toggle tool.

A picture is a `Grid`, a sequence of rows of integers (`bitgrid.dfy`). Width and height are read as the source's `_dims` reads them: height is the number of rows, width is the length of the first row. Every operation requires the grid to be rectangular, which is what the image decoder delivers. None of them requires the values to be 0 or 1, since the source never checks that. Lemmas that need it say so with `Binary`.

Each loop of the source is a method proved equal to a specification function:

- `Ops.Rotate`, `Ops.Trim`, `Ops.Pad`, `Ops.DrawAll` and `Ops.ApplyEdits`;
- `Packing.PackRowMajor`, `Packing.PackPageVertical`, `Packing.PackGroup` and `Packing.GroupBySize`;
- `Formatting.FormatBytesAsCArray`;
- `Editor.TranslateGrid` and `Editor.ResizeBitgridNN`.

The lemmas state what the specification functions promise. The editor's working picture is a field of the `Editor.BitmapEditor` class, which `PaintAt` updates.

The source raises `ValueError` in several places; the model returns these errors as values (`Result`):

- a bad rotation angle;
- a negative margin;
- a draw off the grid or with an unknown action;
- an unknown pack kind;
- a zero `items_per_line`.

The files are:

- `results.dfy`: `Option` and `Result`;
- `arith.dfy`: a quotient-and-remainder fact and a multiplication bound;
- `bitgrid.dfy`: the grid;
- `ops.dfy`: `src/bmp2c/ops.py`;
- `packing.dfy`: the packers, `bytes_per_image` and the size grouping in `src/bmp2c/core.py`;
- `formatting.dfy`: `src/bmp2c/formatting.py`;
- `editor.dfy`: the grid helpers of `src/bmp2c/gui.py`.

The comment at `src/bmp2c/ops.py:57` describes the 90° map as "(x, y) -> (y, new_h-1 - x)". The assignment at line 62 writes `out[x][new_w-1-y]`. The model follows the code, and `Ops.Rotate90Law` states the code's map.

## Model

| member | source | states |
|---|---|---|
| BitGrids.Height | src/bmp2c/ops.py:24-27 | the height is the number of rows, as `_dims` reads it |
| BitGrids.Width | src/bmp2c/ops.py:24-27 | the width is the length of the first row, or 0 when there is no row, as `_dims` reads it |
| Ops.ValidAngle | src/bmp2c/ops.py:46 | the accepted angles are 90, 180 and 270 |
| Ops.Invert | src/bmp2c/ops.py:30-31 | inverting keeps every row's length, and a rectangular grid stays w x h |
| Ops.InvertLaw | src/bmp2c/ops.py:30-31 | each pixel v of the inverse is 1 - v |
| Ops.InvertInvolution | src/bmp2c/ops.py:30-31 | inverting twice gives back the grid |
| Ops.InvertKeepsBinary | src/bmp2c/ops.py:30-31 | a 0/1 grid stays 0/1, and ink and white swap at every pixel |
| Ops.FlipH | src/bmp2c/ops.py:34-35 | the horizontal mirror keeps every row's length and the grid's size |
| Ops.FlipHLaw | src/bmp2c/ops.py:34-35 | pixel (x, y) of the mirror is pixel (w-1-x, y) of the source |
| Ops.FlipHInvolution | src/bmp2c/ops.py:34-35 | mirroring left to right twice gives back the grid |
| Ops.FlipV | src/bmp2c/ops.py:38-39 | row y of the vertical mirror is source row h-1-y, and the size is kept |
| Ops.FlipVInvolution | src/bmp2c/ops.py:38-39 | mirroring top to bottom twice gives back the grid |
| Ops.FlipsCommute | src/bmp2c/ops.py:53-54 | the two flips commute, so the half turn is the same in either order |
| Ops.Rot90 | src/bmp2c/ops.py:56-63 | the quarter turn is h wide and w high, and row x, column h-1-y holds source pixel (x, y) |
| Ops.Rot270 | src/bmp2c/ops.py:65-71 | the three-quarter turn is h wide and w high, and row w-1-x, column y holds source pixel (x, y) |
| Ops.Rotated | src/bmp2c/ops.py:42-71 | fails exactly for an angle outside 90, 180 and 270 (the angle carried in the error is the model's addition; the source's message does not name it); otherwise the result is rectangular, w x h for a half turn or an empty grid and h x w for a quarter turn |
| Ops.Rotate | src/bmp2c/ops.py:42-71 | the loops that fill the preallocated output compute `Rotated` |
| Ops.RotateEmptyIsIdentity | src/bmp2c/ops.py:49-51 | a grid of width or height 0 comes back unchanged from every valid angle |
| Ops.Rotate90Law | src/bmp2c/ops.py:56-63 | rotating by 90 gives an h x w grid with out[x][h-1-y] == bits[y][x] |
| Ops.Rotate270Law | src/bmp2c/ops.py:65-71 | rotating by 270 gives an h x w grid with out[w-1-x][y] == bits[y][x] |
| Ops.Rotate180IsFlips | src/bmp2c/ops.py:53-54 | rotating by 180 equals flip-v after flip-h, and equals flip-h after flip-v |
| Ops.Rot90Rot90 | src/bmp2c/ops.py:53-63 | two quarter-turn maps equal the two flips |
| Ops.Rot270AfterRot90 | src/bmp2c/ops.py:56-71 | the 270 map undoes the 90 map |
| Ops.Rot90AfterRot270 | src/bmp2c/ops.py:56-71 | the 90 map undoes the 270 map |
| Ops.TwoQuarterTurns | src/bmp2c/ops.py:42-71 | two rotations by 90 equal one rotation by 180 |
| Ops.TwoHalfTurns | src/bmp2c/ops.py:53-54 | two rotations by 180 give back the input |
| Ops.FourQuarterTurns | src/bmp2c/ops.py:42-71 | four rotations by 90 give back the input |
| Ops.QuarterTurnsCancel | src/bmp2c/ops.py:56-71 | 90 then 270, and 270 then 90, give back the input |
| Ops.FirstInkRow | src/bmp2c/ops.py:83-97 | the first row from `from` on that holds ink (or h), with no ink in the rows it skipped |
| Ops.LastInkRow | src/bmp2c/ops.py:83-97 | the last row before `upto` that holds ink (or -1), with no ink in the rows after it |
| Ops.FirstInkColumn | src/bmp2c/ops.py:83-97 | the first column from `from` on that holds ink (or w), with no ink in the columns it skipped |
| Ops.LastInkColumn | src/bmp2c/ops.py:83-97 | the last column before `upto` that holds ink (or -1), with no ink in the columns after it |
| Ops.Crop | src/bmp2c/ops.py:103 | the cut-out is (x1-x0+1) x (y1-y0+1), and pixel (j, k) of it is source pixel (x0+j, y0+k) |
| Ops.TightBoxIsFound | src/bmp2c/ops.py:83-97 | when a box is the tight ink box, the four searches return its four edges |
| Ops.InkBoxIsTight | src/bmp2c/ops.py:83-97 | on a grid with ink, the searches find a box that is the tight ink bounding box |
| Ops.SomeTightBox | src/bmp2c/ops.py:83-97 | every grid with ink has a tight bounding box |
| Ops.Trimmed | src/bmp2c/ops.py:74-104 | trimming keeps the grid rectangular, and a grid without ink (an empty one included) comes back unchanged |
| Ops.Trim | src/bmp2c/ops.py:74-104 | the scan that keeps min_x, max_x, min_y and max_y computes `Trimmed` |
| Ops.RowScanned | src/bmp2c/ops.py:86-97 | after the last pixel of row y the scan's bounds cover all ink above row y + 1 |
| Ops.ScanFinished | src/bmp2c/ops.py:99-103 | after the whole grid, max_x < 0 means there is no ink, and otherwise the bounds are the tight ink box |
| Ops.TrimKeepsInk | src/bmp2c/ops.py:103 | the cut-out of a tight box still holds ink |
| Ops.TrimmedIsBoxContent | src/bmp2c/ops.py:99-104 | trimming a grid with ink gives exactly rows min_y..max_y and columns min_x..max_x of the tight box |
| Ops.CropOfTightBox | src/bmp2c/ops.py:103 | the cut-out of a tight box is its own tight box |
| Ops.TrimmedEdgesHaveInk | src/bmp2c/ops.py:83-104 | after trimming a grid with ink, its top and bottom rows and its left and right columns each hold ink |
| Ops.TightGridIsTrimmed | src/bmp2c/ops.py:83-104 | a grid whose own edges are its tight box is left as it is |
| Ops.TrimIdempotent | src/bmp2c/ops.py:74-104 | trimming twice is trimming once |
| Ops.PaddedRow | src/bmp2c/ops.py:117-121 | every output row is left + w + right long |
| Ops.Padded | src/bmp2c/ops.py:111-122 | the padded grid is rectangular, top + h + bottom high and left + w + right wide |
| Ops.PadResult | src/bmp2c/ops.py:107-109 | padding fails, with the margin error, exactly when a margin is negative |
| Ops.Pad | src/bmp2c/ops.py:107-122 | the row-appending loop computes `PadResult` |
| Ops.PadPlacement | src/bmp2c/ops.py:111-122 | the output is (w+l+r) x (h+t+b), out[y+t][x+l] == bits[y][x], and every other pixel is 0 |
| Ops.PadZeroIsIdentity | src/bmp2c/ops.py:107-122 | padding by four zero margins gives back the grid |
| Ops.FramedTightBox | src/bmp2c/ops.py:107-122 | a white frame shifts the tight ink box by (left, top) and keeps it tight |
| Ops.FramedCrop | src/bmp2c/ops.py:103 | the box shifted by the frame holds the same pixels as the source box |
| Ops.FramedTrimBox | src/bmp2c/ops.py:99-104 | trimming a framed grid cuts out the source's tight box |
| Ops.FramedTrim | src/bmp2c/ops.py:74-122 | a white frame around a grid with ink trims to the same grid as the source |
| Ops.PadThenTrim | src/bmp2c/ops.py:74-122 | padding and then trimming gives the same grid as trimming alone |
| Ops.DrawOk | src/bmp2c/ops.py:133-140 | a draw is accepted when (x, y) lies on the w x h grid and the action is "set" or "clear" |
| Ops.DrawValue | src/bmp2c/ops.py:135-138 | "set" writes 1 and "clear" writes 0 |
| Ops.DrawFault | src/bmp2c/ops.py:133-140 | a bad draw reports out-of-bounds with (x, y, w, h) when it is off the grid, and otherwise reports the bad action |
| Ops.DrawOne | src/bmp2c/ops.py:132-140 | one draw fails exactly when it is off the grid or names an unknown action; on success it changes only pixel (x, y) and keeps the size |
| Ops.Drawn | src/bmp2c/ops.py:125-141 | successful draws keep the size, and every failure is a draw error |
| Ops.DrawAll | src/bmp2c/ops.py:125-141 | the copy-then-write loop computes `Drawn` |
| Ops.DrawnErrorSticks | src/bmp2c/ops.py:132-140 | once a prefix of the draws fails, any longer list fails with the same error |
| Ops.DrawnFailsAtFirstBadDraw | src/bmp2c/ops.py:132-140 | the draws succeed exactly when every draw is well-formed, and a failure carries the error of the first bad draw |
| Ops.LastDrawAt | src/bmp2c/ops.py:132-138 | a pixel that no draw names keeps its old value |
| Ops.DrawnPixels | src/bmp2c/ops.py:132-141 | after successful draws each pixel holds the value of the last draw that names it, or its old value |
| Ops.DrawOutsideIsRefused | src/bmp2c/ops.py:133-134 | a draw at (5, 0) on a 3 x 2 grid fails with out-of-bounds (5, 0, 3, 2) |
| Ops.AnyMargin | src/bmp2c/ops.py:160 | the pipeline pads when some margin is non-zero, a negative one included |
| Ops.Flipped | src/bmp2c/ops.py:149-155 | the invert and flip stages keep the size |
| Ops.RotateStage | src/bmp2c/ops.py:156-157 | the rotation stage fails only when an angle is given, and then with that angle |
| Ops.TrimStage | src/bmp2c/ops.py:158-159 | the trim stage leaves the grid alone when trimming is off |
| Ops.PadStage | src/bmp2c/ops.py:160-161 | the pad stage keeps the grid rectangular and fails only with the margin error |
| Ops.DrawStage | src/bmp2c/ops.py:162-163 | the draw stage keeps the grid rectangular and fails only with draw errors |
| Ops.Edited | src/bmp2c/ops.py:144-164 | the pipeline's result is rectangular |
| Ops.ApplyEdits | src/bmp2c/ops.py:144-164 | reassigning the grid stage by stage computes `Edited` |
| Ops.PadGuardIsNeutral | src/bmp2c/ops.py:160-161 | skipping the pad when all four margins are 0 gives the same result as padding |
| Ops.DrawGuardIsNeutral | src/bmp2c/ops.py:162-163 | skipping the draws when there are none gives the same result as drawing |
| Ops.EditedRejectsBadAngle | src/bmp2c/ops.py:46-47 | the pipeline fails with a bad angle exactly when a rotation outside 90, 180 and 270 is asked for |
| Ops.EditedRejectsNegativePad | src/bmp2c/ops.py:108-109 | with a valid or absent rotation, the pipeline fails with the margin error exactly when a margin is negative |
| Ops.NoEditsIsIdentity | src/bmp2c/ops.py:144-164 | with every option off the grid comes back unchanged |
| Ops.InvertFlipPadExample | tests/test_ops.py:46-49 | invert, flip-h and one left margin turn the 3 x 2 sample into the 4 x 2 grid [[0,1,0,1],[0,0,1,0]] |
| Packing.BitIsShift | src/bmp2c/core.py:84 | the mask of bit i is 1 << i |
| Packing.PackByte | src/bmp2c/core.py:80-84 | bit i of the packed byte is set exactly when flag i exists and holds |
| Packing.PackStep | src/bmp2c/core.py:81-84 | or-ing in the last flag packs one more flag |
| Packing.OneBit | src/bmp2c/core.py:84 | or-ing in bit n sets bit n as asked and leaves the other bits as they were |
| Packing.SameBitsSameByte | src/bmp2c/core.py:80-85 | two bytes with the same eight bits are equal |
| Packing.Groups8 | src/bmp2c/core.py:102 | the number of groups of eight covering n, written `(n + 7) // 8` as the source writes it |
| Packing.Groups8Bounds | src/bmp2c/core.py:102 | for n > 0 the groups cover n with fewer than eight to spare |
| Packing.BytesPerImage | src/bmp2c/core.py:116-121 | fails exactly for a pack kind other than "row" and "page", naming that kind |
| Packing.RowGroup | src/bmp2c/core.py:81-83 | flag i of the group at column x holds exactly when column x + i is below w and is ink |
| Packing.RowBytes | src/bmp2c/core.py:78-86 | a row packs into ceil(w/8) bytes, byte k packing columns 8k .. 8k+7 |
| Packing.RowMajor | src/bmp2c/core.py:69-87 | the row layout is ceil(w/8) * h bytes long |
| Packing.PackGroup | src/bmp2c/core.py:80-84 | the bit loop computes the packed byte of the eight flags |
| Packing.OrInNext | src/bmp2c/core.py:83-84 | one turn of the bit loop packs one more flag |
| Packing.PackRowMajor | src/bmp2c/core.py:69-87 | the row packer produces the row layout |
| Packing.RowsLength | src/bmp2c/core.py:76-86 | n rows take n * ceil(w/8) bytes |
| Packing.RowsAt | src/bmp2c/core.py:76-86 | byte y * ceil(w/8) + k of the packed rows is byte k of row y |
| Packing.PageGroup | src/bmp2c/core.py:108-110 | flag i of column x in the band from row y0 holds exactly when row y0 + i is below h and is ink |
| Packing.Band | src/bmp2c/core.py:105-112 | a band packs into w bytes, byte x packing column x of the band's eight rows |
| Packing.PageMajor | src/bmp2c/core.py:90-113 | the page layout is w * ceil(h/8) bytes long |
| Packing.PackPageVertical | src/bmp2c/core.py:90-113 | the page packer produces the page layout |
| Packing.BandsLength | src/bmp2c/core.py:104-112 | n bands take n * w bytes |
| Packing.BandsAt | src/bmp2c/core.py:104-112 | byte b * w + x of the packed bands is byte x of band b |
| Packing.PackedLengths | src/bmp2c/core.py:69-121 | both packers produce exactly `bytes_per_image(w, h, kind)` bytes, and produce none exactly when w or h is 0 |
| Packing.RowMajorPixel | src/bmp2c/core.py:76-86 | bit x%8 of byte y*ceil(w/8) + x/8 is set exactly when x < w and bits[y][x] == 1, so padding columns are 0 |
| Packing.RowMajorAt | src/bmp2c/core.py:76-86 | byte y*ceil(w/8) + k packs columns 8k .. 8k+7 of row y |
| Packing.PageMajorPixel | src/bmp2c/core.py:102-112 | bit y%8 of byte (y/8)*w + x is set exactly when y < h and bits[y][x] == 1, so padding rows are 0 |
| Packing.PageMajorAt | src/bmp2c/core.py:102-112 | byte b*w + x packs rows 8b .. 8b+7 of column x |
| Packing.RowUnpack | src/bmp2c/core.py:69-87 | reading a row buffer back gives a w x h grid |
| Packing.PageUnpack | src/bmp2c/core.py:90-113 | reading a page buffer back gives a w x h grid |
| Packing.RowUnpackOfPack | src/bmp2c/core.py:69-87 | unpacking the row layout of any 0/1 grid gives back the grid, the empty grids of the early return included |
| Packing.PageUnpackOfPack | src/bmp2c/core.py:90-113 | unpacking the page layout of any 0/1 grid gives back the grid, the empty grids of the early return included |
| Packing.DiagonalPacksToMasks | tests/test_pack.py:6-18 | the 8 x 8 diagonal packs to 0x01, 0x02, …, 0x80, and takes 8 bytes |
| Packing.TenByTwoPacks | tests/test_pack.py:20-28 | the 10 x 2 sample packs to 0x03, 0x00, 0x00, 0x02, and takes 4 bytes in row mode and 10 in page mode |
| Packing.WithSize | src/bmp2c/core.py:362-364 | a group holds only results of its size, never more than there are results |
| Packing.SizesInOrder | src/bmp2c/core.py:362-364 | the group keys are distinct, and are exactly the sizes that occur |
| Packing.GroupBySize | src/bmp2c/core.py:362-364 | the dictionary has a key for each size that occurs, in first-seen order, and each key's group is the results of that size in incoming order |
| Packing.EachResultInOneGroup | src/bmp2c/core.py:362-364 | every result lies in the group of its own size and in no other group |
| Packing.WithSizeAppend | src/bmp2c/core.py:362-364 | grouping keeps the incoming order: the group of a concatenation is the concatenation of the groups |
| Packing.FirstSizeFirst | src/bmp2c/core.py:362-364 | the first key is the size of the first result, which is the group taken when there is a single size |
| Packing.WithAbsentSize | src/bmp2c/core.py:362-364 | a size that no result has gets no members |
| Formatting.Underscored | src/bmp2c/formatting.py:17 | each character outside [A-Za-z0-9_] becomes '_' in place, and the others are kept |
| Formatting.SanitizeSymbol | src/bmp2c/formatting.py:7-21 | the result is identifier-shaped (non-empty, [A-Za-z0-9_] only, no leading digit; C keywords are not excluded), and the empty name gives "_" |
| Formatting.KeywordPassesThrough | src/bmp2c/formatting.py:7-21 | the keywords "int" and "for" come back unchanged, so the result is not always a usable C name |
| Formatting.SanitizeSymbolShape | src/bmp2c/formatting.py:14-21 | a leading digit adds one '_' in front; otherwise the length is kept, and every valid character keeps its place (after the shift) and its case |
| Formatting.SanitizeIdentifier | src/bmp2c/formatting.py:7-21 | a name that is already an identifier comes back unchanged |
| Formatting.SanitizeIdempotent | src/bmp2c/formatting.py:7-21 | sanitising twice is sanitising once |
| Formatting.ToUpper | src/bmp2c/formatting.py:28 | lower-case ASCII letters become upper case, and every other character is kept |
| Formatting.UpperMacro | src/bmp2c/formatting.py:24-28 | the macro keeps the length, with each character replaced if invalid and then upper-cased |
| Formatting.UpperMacroOfIdentifier | src/bmp2c/formatting.py:24-28 | the macro of a sanitised name has its length, holds only [A-Z0-9_], and upper-cases each letter in place |
| Formatting.HexDigit | src/bmp2c/formatting.py:38 | an uppercase hex digit that reads back as its value |
| Formatting.HexItem | src/bmp2c/formatting.py:38 | an item is "0x" and two uppercase hex digits |
| Formatting.ItemRoundTrip | src/bmp2c/formatting.py:38 | an item reads back as the byte it was written from |
| Formatting.Items | src/bmp2c/formatting.py:38 | item i is the literal of byte i, in input order |
| Formatting.JoinWith | src/bmp2c/formatting.py:41-42 | `sep.join(parts)`: the parts with the separator between each two |
| Formatting.Lines | src/bmp2c/formatting.py:39-41 | the lines of the listing: four spaces, then up to k items joined by ", ", one line for each k items |
| Formatting.Listing | src/bmp2c/formatting.py:39-42 | the lines joined by ",\n" |
| Formatting.CArrayText | src/bmp2c/formatting.py:31-42 | fails exactly for a step of 0 (the `range` error); a negative step or no bytes gives the empty text |
| Formatting.FormatBytesAsCArray | src/bmp2c/formatting.py:31-42 | the stepped line loop computes the listing, and a step of 0 is an error |
| Formatting.LinesStep | src/bmp2c/formatting.py:40-41 | one turn of the loop appends the line of items i .. i+k |
| Formatting.LinesCount | src/bmp2c/formatting.py:40-42 | there are ceil(n/k) lines |
| Formatting.LineAt | src/bmp2c/formatting.py:40-41 | line j is four spaces and items j*k .. j*k+k, cut off at the end |
| Formatting.LinesLayout | src/bmp2c/formatting.py:39-42 | there are ceil(n/k) lines; each starts with four spaces and holds its items in order; every line but the last holds k items |
| Formatting.EmptyListing | src/bmp2c/formatting.py:39-42 | the listing is "" exactly when there are no bytes |
| Formatting.CArrayRoundTrip | src/bmp2c/formatting.py:31-42 | reading the listing back gives the bytes' values in order |
| Editor.ShiftedPixel | src/bmp2c/gui.py:834-844 | pixel (x, y) of the moved picture is source pixel (x-dx, y-dy) when it exists, and 0 otherwise |
| Editor.Translated | src/bmp2c/gui.py:823-844 | moving keeps the size |
| Editor.TranslateGrid | src/bmp2c/gui.py:823-844 | the copy or the loops that fill the preallocated output compute `Translated` |
| Editor.TranslateLaw | src/bmp2c/gui.py:834-844 | out[y][x] is grid[y-dy][x-dx] when that pixel exists, and 0 otherwise |
| Editor.TranslateByNothing | src/bmp2c/gui.py:831-832 | a zero move, or a move of an empty grid, gives a grid equal to the input |
| Editor.TranslateBack | src/bmp2c/gui.py:823-844 | moving there and back keeps every pixel that stayed on the grid and whitens the others |
| Editor.TranslateKeepsBinary | src/bmp2c/gui.py:823-844 | moving keeps a picture black and white |
| Editor.AtLeastOne | src/bmp2c/gui.py:784-785 | the requested size is raised to at least 1 |
| Editor.SourceIndex | src/bmp2c/gui.py:792-795 | the sampled index always lies on the source grid |
| Editor.Resized | src/bmp2c/gui.py:777-798 | the result has exactly max(1, new_h) rows of max(1, new_w) pixels |
| Editor.ResizeBitgridNN | src/bmp2c/gui.py:777-798 | the appending loops compute `Resized` |
| Editor.ResizeEmptyIsWhite | src/bmp2c/gui.py:786-787 | an empty input resizes to an all-white grid |
| Editor.ResizeLaw | src/bmp2c/gui.py:789-798 | out[y][x] is grid[min(h-1, y*h/new_h)][min(w-1, x*w/new_w)] |
| Editor.SameSizeIndex | src/bmp2c/gui.py:792-795 | sampling at the same size picks the same index |
| Editor.ResizeToSameSize | src/bmp2c/gui.py:789-798 | resizing to the current size gives back the grid |
| Editor.ResizeKeepsBinary | src/bmp2c/gui.py:777-798 | resizing keeps a picture black and white |
| Editor.PaintValue | src/bmp2c/gui.py:483-488 | pen writes 1, eraser 0, toggle 1 - v, and any other tool keeps v |
| Editor.Painted | src/bmp2c/gui.py:479-488 | only pixel (x, y) may change, and only when it lies on the grid |
| Editor.PaintOutside | src/bmp2c/gui.py:481-482 | a point off the grid changes nothing |
| Editor.ToggleTwice | src/bmp2c/gui.py:487-488 | toggling the same pixel twice restores the picture |
| Editor.PenAndEraserIdempotent | src/bmp2c/gui.py:483-486 | a second pen or eraser stroke on the same pixel changes nothing |
| Editor.PaintKeepsBinary | src/bmp2c/gui.py:483-488 | painting keeps a picture black and white |
| Editor.BitmapEditor.constructor | src/bmp2c/gui.py:90 | the editor starts without a picture |
| Editor.BitmapEditor.PaintAt | src/bmp2c/gui.py:476-488 | without a picture nothing happens; otherwise the picture becomes `Painted` of the old one and stays rectangular |

## Left out

- The Tk user interface is not modelled: menus, canvas rendering (the `_editor_render` call at the end of `_paint_at`), logo loading, file dialogs, and the worker thread that runs a conversion. They are user interface and concurrency.
- Image decoding and saving through PIL are not modelled, nor the BMP header peek. They are foreign library calls and file I/O. The decoder is taken to deliver a rectangular grid.
- File writing, the C header and matrix text templates, and the orchestration in `process_single_image` and `process_folder` are not modelled; only the grouping loop is. They are I/O and fixed text.
- The sort keys `_alpha_key` and `_natural_key` are not modelled. They rest on Unicode case folding and Python's ordering of mixed tuples. `GroupBySize` takes the results in the order they arrive, already sorted.
- The draw-text parsers of the command line and of the editor are not modelled. Draws come in already parsed as (x, y, action) triples.
- Packing.GroupBySize: an image result keeps only the stem of its source path, not the path itself.
- Ops.Pad: the source's second guard (`new_w < 0 or new_h < 0`) is not a branch, because it cannot fire once every margin is known to be non-negative.
- Ops.DrawAll: that the input is not mutated and that the copies do not alias the input are not stated, because grids are values here and aliasing cannot arise.
- Editor.TranslateGrid: on a zero move or an empty grid the source returns a fresh row-by-row copy; the model returns a value equal to the input, so that the copy shares no rows with the input is not captured.
- Editor.BitmapEditor.PaintAt: the source updates the pixel in place inside the row list; the model replaces the picture by an updated value, so aliasing between the editor's picture and other references to its rows is not captured.
- Packing.PackRowMajor: bytes are `bv8`, so "every byte is in 0..255" holds by type rather than by a lemma.
- Formatting.SanitizeSymbol: the result is only identifier-shaped. A C keyword (an image named `int.bmp`) comes through unchanged, as `Formatting.KeywordPassesThrough` shows, and would not compile as a symbol; the model follows the code and does not promise a usable C name.
- Default arguments are explicit parameters: `pack_kind` (default "row") of `bytes_per_image` is the `kind` argument of `Packing.BytesPerImage`, and `items_per_line` (default 12, the value every caller uses) is the `perLine` argument of `Formatting.CArrayText`. The lemmas hold for every positive step, 12 included.
- Formatting.CArrayRoundTrip: the parser reads items back as integers 0..255 rather than as bytes, and the round trip is stated for a positive `items_per_line`. A step of 0 is the `range` error, and a negative step gives the empty text.
