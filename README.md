# dify — a Dafny model of the image comparison core

`dify` compares two images pixel by pixel. It converts each pair of colours to
the YIQ colour space and paints every pixel whose weighted YIQ distance exceeds
a threshold into a diff image: red if it counts as a difference, yellow if it is
put down to anti-aliasing. It also counts the red pixels. This project models:

- the comparison loop of `run` (`src/diff.rs`), as an imperative method over a
  2-D output array;
- the older `difference` loop and the argument case analysis of `main`
  (`src/main.rs`);
- the YIQ conversion and distance (`src/yiq.rs`), and the matrix form of the
  conversion (`src/lib.rs`);
- the command-line accessors of `src/cli.rs`. The block-out area parser
  (`get_block_out_area`) is an imperative method that folds rectangles into a
  point set.

Modules:

| module | file | contents |
|---|---|---|
| `Wrappers` | wrappers.dfy | `Option`, `Result` |
| `Pixels` | pixels.dfy | 8-bit channels, RGB and RGBA pixels, images as rows of pixels |
| `Getopts` | getopts.dfy | `Matches`: the parsed command line (options with their values, free arguments) |
| `Text` | text.dfy | the string operations from Rust's standard library that the accessors use: `splitn` with the separator search it does internally (`IndexOf`), `u32` parsing, ASCII `to_lowercase` |
| `Yiq` | yiq.dfy | `src/yiq.rs` |
| `YiqMatrix` | yiq_matrix.dfy | `src/lib.rs` |
| `Diff`, `DiffProperties` | diff.dfy | `run` and what it promises |
| `LegacyMain` | legacy_main.dfy | `difference` and `main` |
| `Cli`, `CliProperties` | cli.dfy | the accessors of `Cli` and the block-out area |

How the model represents the source:

- **Arithmetic.** Colour arithmetic is over `real`, so the unit tests' literal
  values hold exactly.
- **Images.** An image is `Image(width, height, rows)`, where `rows[y][x]` is
  the pixel at column `x`, row `y`.
- **The diff buffer.** It is an `array2<Pixel>` indexed `[x, y]`.
- **The count.** It is a `U32`. The method proves that it equals
  `TotalDiffs`, the number of counted cells, defined once over a predicate on
  coordinates.
- **Anti-aliasing.** `dify::antialiased` is not part of this model. It is the
  parameter `antialiased: Detector`.
- **The colour distance.** A `Comparison` carries the distance it compares
  against the threshold (`distance: Metric`). `Diff.Run` always sets it to
  `Diff.Delta`, the squared YIQ distance of the two RGB colours, as `run` computes it
  at `src/diff.rs:63-65`. The classification lemmas hold for any distance, and
  the ones that need the YIQ distance say so (`c.distance == Delta`).
- **Float parsing.** `str::parse::<f32>` is the parameter
  `parse: string -> Option<real>`.

## Model

| member | source | states |
|---|---|---|
| Diff.Run | src/diff.rs:29-100 | Fails iff dimensions are checked and differ, with the error carrying both dimension pairs. Otherwise returns a fresh left-sized buffer in which every cell is the expected pixel of the classification under the YIQ distance. The result is `Some(n)` with `n` the number of counted cells when that number is positive, else `None`. |
| Diff.Scan | src/diff.rs:50-87 | The nested loops over a buffer that starts at the base pixels: every cell ends as its expected pixel, and the counter ends at the number of counted coordinates. |
| Diff.ScanColumn | src/diff.rs:53-86 | One column of the scan: the count grows by exactly that column's counted cells. The column goes from base pixels to expected pixels. Other columns are unchanged. |
| Diff.VisitPixel | src/diff.rs:54-85 | One coordinate: the counter grows by one iff the cell is counted, and then the cell is red. The cell ends as its expected pixel. No other cell changes. |
| Diff.ComparePixel | src/diff.rs:54-80 | Returns `is_different` exactly when the classification is counted (out of bounds, or above threshold without an anti-alias hit). Paints yellow exactly on an anti-alias hit. Touches no other cell. |
| Diff.Classify | src/diff.rs:56-80 | Out of bounds iff the right image lacks the coordinate. Identical iff the RGBA pixels are equal. Below threshold iff the pixels are in bounds and differ but their distance is at most the scaled threshold. Different or anti-aliased only above it. Anti-aliased only when anti-aliasing is not included and the detector fires on either side. Different only when the detector is not consulted or does not fire. |
| Diff.Paint | src/diff.rs:67-85 | The cell ends red iff it is counted (or was red and is not anti-aliased). It ends yellow iff it is anti-aliased (or was yellow and is not counted). |
| Diff.Delta | src/diff.rs:63-65 | The YIQ delta of two pixels is non-negative and is zero when their RGB parts agree. |
| Diff.ScaledThreshold | src/diff.rs:41 | `35215·t·t` is non-negative for every threshold. |
| Diff.CountColumn | src/diff.rs:82-83 | The number of counted cells in the first `n` rows of a column is at most `n`. |
| Diff.CountGridBound | src/diff.rs:50-87 | The count over the first `m` columns is at most `m·height`. |
| Diff.CounterFits | src/diff.rs:83 | Before any increment the counter is below `width·height`, so under the `u32` precondition `diffs += 1` cannot overflow. |
| DiffProperties.CountColumnPositive | src/diff.rs:82-83 | A column's count is positive iff some row in it is flagged. |
| DiffProperties.CountGridPositive | src/diff.rs:52-87 | The grid count is positive iff some coordinate in the grid is flagged. |
| DiffProperties.CountColumnCardinality | src/diff.rs:82-83 | A column's count is the size of the set of its flagged coordinates. |
| DiffProperties.CountGridCardinality | src/diff.rs:52-87 | The grid count is the size of the set of flagged coordinates. |
| DiffProperties.SomeIffCounted | src/diff.rs:89-99 | `run` answers `Some` iff at least one coordinate is counted. |
| DiffProperties.CountIsCountedCells | src/diff.rs:50-87 | The returned count is exactly the number of counted coordinates, and it is at most `width·height`. |
| DiffProperties.PaintedCells | src/diff.rs:44-85 | On a blank base, a cell is red iff it is counted. Identical and below-threshold cells keep the base pixel (the left image's pixel, or transparent). |
| DiffProperties.SelfComparison | src/diff.rs:56-61 | Comparing an image with itself classifies every coordinate identical and counts nothing. |
| DiffProperties.AlphaOnlyDifference | src/diff.rs:59-67 | With the YIQ distance, pixels that differ only in alpha have distance 0, so they are never painted or counted. |
| DiffProperties.ThresholdMonotone | src/diff.rs:41-67 | A pixel below the threshold stays below any higher threshold. |
| DiffProperties.DetectorUnused | src/diff.rs:68-76 | With anti-aliasing included, no pixel is anti-aliased and the detector does not influence the classification. |
| DiffProperties.YellowPixelScenario | src/diff.rs:56-85 | On a 2×2 image, a yellow pixel against a transparent one at threshold 0.05 is counted as different. The other three cells are identical and the total is 1. |
| LegacyMain.Difference | src/main.rs:27-59 | Fails iff the dimensions differ. Otherwise returns a fresh left-sized buffer whose every cell is red when the YIQ distance exceeds `35215·t·t`, and transparent otherwise. |
| LegacyMain.Mark | src/main.rs:39-50 | The colour of one cell is red or transparent. For a non-negative threshold, a red cell has left and right pixels of different RGB. |
| LegacyMain.MarkColumn | src/main.rs:38-51 | One column of `difference`: each cell becomes its mark. Other columns are unchanged. |
| LegacyMain.SameColourNeverMarked | src/main.rs:33-50 | Pixels with equal RGB are never marked, whatever the threshold. |
| LegacyMain.AgreesWithRun | src/main.rs:33-50 | On equal dimensions, the mark of `difference` equals the pixel `run` paints on a blank base with anti-aliasing included. |
| LegacyMain.Dispatch | src/main.rs:87-111 | Help iff `-h` is given or both images are missing. The `-r` error iff only `-l` is given, and the `-l` error iff only `-r` is given. Compare iff both are given and the threshold parses. The comparison takes the output path, defaulting to `diff.png`, and the parsed threshold text, defaulting to `0.1`. |
| Yiq.FromRgb | src/yiq.rs:10-20 | The luminance is non-negative for every 8-bit colour, and black converts to (0, 0, 0). |
| Yiq.SquaredDistance | src/yiq.rs:23-30 | The weighted squared distance is non-negative and zero between equal colours. |
| Yiq.SquaredDistanceSymmetric | src/yiq.rs:23-30 | The distance is symmetric in its arguments. |
| Yiq.SquaredDistanceShift | src/yiq.rs:23-30 | The distance depends only on the component differences: shifting both colours by the same triple leaves it unchanged. |
| Yiq.SquaredDistanceExample | src/yiq.rs:67-80 | The distance between (0.5, 0.1, -0.1) and (0.5, -0.1, 0.1) is exactly 0.019788. |
| Yiq.SquareRootDistanceSame | src/yiq.rs:32-34 | The square-root distance of a colour to itself is 0. |
| YiqMatrix.FromRgbBlack | src/lib.rs:9-25 | The matrix transform maps black to (0, 0, 0). |
| YiqMatrix.TransformAdditive | src/lib.rs:10-22 | The transform of a sum of RGB vectors is the sum of the transforms. |
| YiqMatrix.LuminanceMonotone | src/lib.rs:11-20 | Luminance is non-negative and non-decreasing in each channel. |
| YiqMatrix.AgreesWithYiq | src/lib.rs:9-25 | The matrix form gives the same triple as `src/yiq.rs`'s `from_rgb`. |
| Cli.CopyImageAsBase | src/cli.rs:113-130 | `Ok(None)` iff the flag is absent. `Left` iff the flag is bare or its value is `left` in any letter case, and `Right` iff the value is `right` in any case. Any other value is an error. |
| Cli.BlendFactor | src/cli.rs:141-175 | `Ok(None)` iff the flag is absent, and `Ok(Some(0.1))` for a bare flag. It is an error iff the value does not parse or lies outside [0, 1]. An accepted value is the parsed one. |
| Cli.OutputImagePath | src/cli.rs:177-181 | The given path, or `diff.png` when none is given. |
| Cli.Threshold | src/cli.rs:183-195 | 0.1 when not given. It is an error iff a given value does not parse, and otherwise the parsed value. |
| Cli.ImagePaths | src/cli.rs:197-211 | The LEFT error iff there are no free arguments, and the RIGHT error iff there is exactly one. Otherwise the first two free arguments, in order. |
| Cli.Segment | src/cli.rs:219-225 | A segment that parses as a `u32` gives its value. A positive result comes from a segment that exists and parses to that value, so a missing or unparseable segment gives 0. |
| Cli.RectOf | src/cli.rs:222-230 | `None` iff one of the four segment values is 0. Otherwise the rectangle is made of the four segment values, in the order x, y, width, height, and all four are positive. |
| Cli.ParseArea | src/cli.rs:218-231 | A kept area has all four fields positive and came from exactly four comma segments. So a value with fewer than three commas is dropped. |
| Cli.Points | src/cli.rs:236-240 | Every point lies in `x..=x+width` × `y..=y+height`. When the ends fit in a `u32`, both corners `(x, y)` and `(x+width, y+height)` are included. `PointsCount` counts the points. |
| Cli.AddArea | src/cli.rs:232-243 | One fold step: `None` iff both the accumulator and the area are `None`. A dropped area leaves the accumulator as it is. A kept area's points and the old points are all in the result. |
| Cli.Union | src/cli.rs:217-243 | The fold over the parsed areas: when the last area is kept, the result holds all its points. `UnionNone` and `UnionMembership` state the whole result. |
| Cli.BlockOutArea | src/cli.rs:213-245 | The fold's result is the union of the points of every kept rectangle, or `None` when none was kept. |
| Cli.InsertRect | src/cli.rs:234-241 | The nested loops add exactly the inclusive points `x..=x+w` × `y..=y+h` to the set. |
| CliProperties.PointsCount | src/cli.rs:236-240 | A kept rectangle contributes `(w+1)·(h+1)` points. |
| CliProperties.ColumnSize | src/cli.rs:237-239 | One column of a block holds `y1 - y0` points. |
| CliProperties.BlockSize | src/cli.rs:236-240 | A block holds `(x1 - x0)·(y1 - y0)` points. |
| CliProperties.UnionNone | src/cli.rs:217-243 | The fold is `None` iff no element is a kept rectangle. |
| CliProperties.UnionMembership | src/cli.rs:217-243 | A point is in the fold's set iff some kept rectangle contains it. |
| CliProperties.UnionSameElements | src/cli.rs:217-243 | Folds over lists with the same elements agree. |
| CliProperties.UnionOrderFree | src/cli.rs:213-245 | Permuting the area strings does not change the fold. |
| CliProperties.BlockOutNone | src/cli.rs:213-245 | The result is `None` iff every area string is dropped. |
| CliProperties.BlockOutMembership | src/cli.rs:213-245 | A point is blocked out iff some kept area's rectangle contains it. |
| CliProperties.BlockOutOrderFree | src/cli.rs:213-245 | The order of the `-b` options does not matter. |
| CliProperties.ParseAreaRoundTrip | src/cli.rs:218-230 | Rendering a rectangle with positive fields as `x,y,w,h` and parsing it gives the rectangle back. |
| CliProperties.FifthSegmentDropsArea | src/cli.rs:219-230 | With a fifth segment, the fourth part keeps the comma (`"1,2,3,4,5"` splits as `1`, `2`, `3`, `4,5`). That part parses to 0, so the area is dropped. |
| CliProperties.CommaIsNoNumber | src/cli.rs:221 | A segment containing a comma is not a `u32`. |
| CliProperties.SplitRendered | src/cli.rs:219-220 | Four comma-free fields joined by commas split back into those four fields. |
| Text.IndexOf | src/cli.rs:219-220 | The first occurrence of the separator: `None` iff it is absent. Otherwise the position holds the separator and none occurs before it. |
| Text.SplitN | src/cli.rs:219-220 | `splitn(n, sep)` yields between 1 and `n` parts, and no part but the last contains the separator. When fewer than `n` parts come out, the last one has no separator either. |
| Text.JoinSplitN | src/cli.rs:219-220 | Joining the parts of `splitn` with the separator restores the string. |
| Text.ParseU32 | src/cli.rs:221 | A parsed `u32` is below 2^32. |
| Text.ParseU32Decimal | src/cli.rs:221 | Parsing the decimal rendering of a `u32` gives it back. |
| Text.ToLower | src/cli.rs:119 | ASCII lower-casing keeps the length and maps each character on its own. |
| Text.ToLowerMatches | src/cli.rs:119-121 | A value lower-cases to a lower-case word iff it spells that word in any letter case. |
| Getopts.Matches.OptStr | src/cli.rs:118 | A value is only reported for an option that is present. |

The flag accessors `show_help`, `show_version`, `do_not_check_dimensions` and
`detect_anti_aliased_pixels` (`src/cli.rs:105-139`) are `Cli.ShowHelp`,
`Cli.ShowVersion`, `Cli.DoNotCheckDimensions` and `Cli.DetectAntiAliasedPixels`:
each is `OptPresent` on its own option, and they carry no contract of their own.

## Left out

- Image I/O is not modelled: opening, decoding, `to_rgba` and saving the diff as
  a PNG. Images are values, and "saving" is returning the buffer. The open,
  decode and save error paths of `run` and `difference` are therefore absent.
- `dify::antialiased` is not part of this model. It is the parameter
  `Detector`, consulted on (left, right) and then (right, left).
- Argument parsing itself (`getopts`, `env::args`) is not modelled. Neither are
  help and version printing or the colouring and wording of messages. `Matches`
  is a record of option occurrences and free arguments, and errors are tagged
  values.
- f32 arithmetic is modelled over `real`, so rounding, NaN and infinities are
  absent. `str::parse::<f32>` is a parameter.
- Yiq.SquareRootDistanceSame: `square_root_distance` is a predicate relating a
  distance to its square root, because there is no `sqrt` on `real`. The
  0.14066982 test depends on float rounding and is not stated.
- Text.ToLower: lower-cases ASCII letters only. Rust's `to_lowercase` also
  folds non-ASCII letters; `left` and `right` are ASCII.
- Diff.Run: requires `width·height < 2^32` instead of modelling the `u32`
  overflow of `diffs += 1`, which panics in a debug build and wraps silently
  in a release build. `CounterFits` shows the counter never exceeds that bound.
- Cli.BlockOutArea: requires every kept rectangle to satisfy
  `x + width < 2^32` and `y + height < 2^32` (`AreasFit`), instead of modelling
  the overflow at `x..=x + width`.
- The block-out set and the blend factor are produced but not consumed by the
  comparison loop, so the model does not apply them either.
- `src/main.rs` calls `squared_distance` on `dify::YIQ` (`src/lib.rs`), which
  declares no such method. The model uses `Yiq.SquaredDistance` on the triple
  `YiqMatrix.FromRgb` computes, which equals `Yiq.FromRgb`'s.
- `get_threshold` accepts any parsed value. The help text at `src/cli.rs:82`
  says the threshold ranges from 0 to 1, but the code does no range check, and
  the model follows the code.
- The benches, `examples/distance.rs` and the end-to-end tests drive binaries
  and fixture files, and are not modelled.
