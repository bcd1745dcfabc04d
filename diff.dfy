/** The comparison engine of src/diff.rs: every coordinate of the left image
    is classified against the right image, marker colours are painted into an
    output buffer, and the coordinates that count as differences are tallied. */
module Diff {
  import opened Wrappers
  import opened Pixels
  import Yiq

  const MaxYiqPossibleDelta: real := 35215.0
  const RedPixel: Pixel := Rgba(255, 0, 0, 255)
  const YellowPixel: Pixel := Rgba(255, 255, 0, 255)

  /** The anti-aliasing heuristic `antialiased(image, x, y, width, height,
      other)`, taken as a parameter: its definition is not part of this model. */
  type Detector = (Image, nat, nat, nat, nat, Image) -> bool

  /** The colour distance compared against the scaled threshold. `run` always
      uses `Delta`, the squared YIQ distance; the lemmas that do not depend on
      it hold for any distance. */
  type Metric = (Pixel, Pixel) -> real

  /** The five ways a left-image coordinate can compare with the right image. */
  datatype Class = Identical | BelowThreshold | Different | OutOfBounds | AntiAliased

  datatype RunError = DimensionMismatch(left: (U32, U32), right: (U32, U32))

  /** The user's threshold in the metric's squared-distance units. */
  function ScaledThreshold(threshold: real): (s: real)
    ensures s >= 0.0
  {
    MaxYiqPossibleDelta * Yiq.Square(threshold)
  }

  function Abs(v: real): real {
    if v < 0.0 then -v else v
  }

  /** The squared YIQ distance between the colour channels of two pixels. */
  function Delta(p: Pixel, q: Pixel): (d: real)
    ensures d >= 0.0
    ensures p.ToRgb() == q.ToRgb() ==> d == 0.0
  {
    Yiq.SquaredDistance(Yiq.FromRgb(p.ToRgb()), Yiq.FromRgb(q.ToRgb()))
  }

  /** Everything the per-pixel decision depends on: both images, the scaled
      threshold, whether anti-aliased pixels are included as differences, the
      detector consulted when they are not, and the colour distance. */
  datatype Comparison = Comparison(left: Image, right: Image, threshold: real,
                                   includeAntiAliasing: bool, antialiased: Detector,
                                   distance: Metric) {
    predicate Valid() {
      left.Valid() && right.Valid()
    }

    /** The coordinates the comparison visits: those of the left image. */
    predicate InDomain(x: nat, y: nat) {
      left.InBounds(x, y)
    }

    /** The detector fires for (x, y) with either image as the reference. */
    predicate AntiAliasedAt(x: nat, y: nat) {
      antialiased(left, x, y, left.width, left.height, right)
        || antialiased(right, x, y, left.width, left.height, left)
    }
  }

  /** The class of one left-image coordinate. */
  function Classify(c: Comparison, x: nat, y: nat): (k: Class)
    requires c.Valid() && c.InDomain(x, y)
    ensures k == OutOfBounds <==> !c.right.InBounds(x, y)
    ensures k == Identical <==> c.right.InBounds(x, y) && c.left.At(x, y) == c.right.At(x, y)
    ensures k == BelowThreshold <==>
              && c.right.InBounds(x, y) && c.left.At(x, y) != c.right.At(x, y)
              && Abs(c.distance(c.left.At(x, y), c.right.At(x, y))) <= c.threshold
    ensures k == Different || k == AntiAliased ==>
              Abs(c.distance(c.left.At(x, y), c.right.At(x, y))) > c.threshold
    ensures k == AntiAliased ==> !c.includeAntiAliasing && c.AntiAliasedAt(x, y)
    ensures k == Different ==> c.includeAntiAliasing || !c.AntiAliasedAt(x, y)
  {
    if !c.right.InBounds(x, y) then OutOfBounds
    else
      var l, r := c.left.At(x, y), c.right.At(x, y);
      if l == r then Identical
      else if Abs(c.distance(l, r)) <= c.threshold then BelowThreshold
      else if !c.includeAntiAliasing && c.AntiAliasedAt(x, y) then AntiAliased
      else Different
  }

  /** The classes that add to the difference count. */
  predicate Counted(k: Class) {
    k == Different || k == OutOfBounds
  }

  /** The colour left at a coordinate of class `k` whose base pixel is `base`. */
  function Paint(base: Pixel, k: Class): (p: Pixel)
    ensures p == RedPixel <==> Counted(k) || (k != AntiAliased && base == RedPixel)
    ensures p == YellowPixel <==> k == AntiAliased || (!Counted(k) && base == YellowPixel)
  {
    match k
    case Different => RedPixel
    case OutOfBounds => RedPixel
    case AntiAliased => YellowPixel
    case _ => base
  }

  /** The starting buffer: a copy of left, or a fully transparent canvas. */
  function Base(c: Comparison, basedOnLeft: bool, x: nat, y: nat): Pixel
    requires c.Valid() && c.InDomain(x, y)
  {
    if basedOnLeft then c.left.At(x, y) else Transparent
  }

  /** What the output holds at (x, y) once the comparison is done. */
  function Expected(c: Comparison, basedOnLeft: bool, x: nat, y: nat): Pixel
    requires c.Valid() && c.InDomain(x, y)
  {
    Paint(Base(c, basedOnLeft, x, y), Classify(c, x, y))
  }

  /** Whether (x, y) adds to the count: a left-image coordinate that is out
      of bounds or a real difference. */
  predicate IsCounted(c: Comparison, x: nat, y: nat) {
    c.Valid() && c.InDomain(x, y) && Counted(Classify(c, x, y))
  }

  /** A flag for every coordinate. */
  type Flags = (nat, nat) -> bool

  /** The flags `run` counts. */
  function CountedFlags(c: Comparison): Flags {
    (x: nat, y: nat) => IsCounted(c, x, y)
  }

  /** Flagged coordinates of column x among rows 0 .. n-1. */
  function CountColumn(f: Flags, x: nat, n: nat): (d: nat)
    ensures d <= n
  {
    if n == 0 then 0 else CountColumn(f, x, n - 1) + (if f(x, n - 1) then 1 else 0)
  }

  /** Flagged coordinates of columns 0 .. m-1, rows 0 .. h-1. */
  function CountGrid(f: Flags, m: nat, h: nat): nat {
    if m == 0 then 0 else CountGrid(f, m - 1, h) + CountColumn(f, m - 1, h)
  }

  /** At most one flag per coordinate. */
  lemma {:induction false} CountGridBound(f: Flags, m: nat, h: nat)
    ensures CountGrid(f, m, h) <= m * h
  {
    if m > 0 {
      CountGridBound(f, m - 1, h);
      MulSucc(m - 1, h);
    }
  }

  lemma MulSucc(a: nat, h: nat)
    ensures (a + 1) * h == a * h + h
  {
  }

  /** The number of differences over the whole left image. */
  function TotalDiffs(c: Comparison): nat {
    CountGrid(CountedFlags(c), c.left.width, c.left.height)
  }

  /** `run`: compare two decoded images. The caller writes `output` to disk
      exactly when the result is `Ok(Some(n))`. */
  method Run(left: Image, right: Image, threshold: real, diffBasedOnLeft: bool,
             doNotCheckDimensions: bool, includeAntiAliasing: bool, antialiased: Detector)
    returns (res: Result<Option<U32>, RunError>, output: array2<Pixel>)
    requires left.Valid() && right.Valid()
    requires left.width * left.height < 0x1_0000_0000
    ensures res.Err? <==> !doNotCheckDimensions && left.Dimensions() != right.Dimensions()
    ensures res.Err? ==> res.error == DimensionMismatch(left.Dimensions(), right.Dimensions())
    ensures res.Ok? ==>
      var c := Comparison(left, right, ScaledThreshold(threshold), includeAntiAliasing, antialiased, Delta);
      && fresh(output)
      && output.Length0 == left.width && output.Length1 == left.height
      && (forall x, y :: 0 <= x < left.width && 0 <= y < left.height ==>
            output[x, y] == Expected(c, diffBasedOnLeft, x, y))
      && res.value == (if TotalDiffs(c) > 0 then Some(TotalDiffs(c)) else None)
  {
    if !doNotCheckDimensions && left.Dimensions() != right.Dimensions() {
      output := new Pixel[0, 0];
      return Err(DimensionMismatch(left.Dimensions(), right.Dimensions())), output;
    }
    var c := Comparison(left, right, ScaledThreshold(threshold), includeAntiAliasing, antialiased, Delta);
    var width, height := left.width, left.height;
    output := new Pixel[width, height]((x: nat, y: nat) =>
      if diffBasedOnLeft && x < width && y < height then left.At(x, y) else Transparent);
    var diffs := Scan(c, diffBasedOnLeft, output);
    res := Ok(if diffs > 0 then Some(diffs) else None);
  }

  /** The nested loops of `run` over a buffer that starts at the base pixels:
      every cell ends as its expected pixel and the counter ends at the
      number of counted coordinates. */
  method Scan(c: Comparison, basedOnLeft: bool, output: array2<Pixel>) returns (diffs: U32)
    requires c.Valid() && c.left.width * c.left.height < 0x1_0000_0000
    requires output.Length0 == c.left.width && output.Length1 == c.left.height
    requires forall i, j :: 0 <= i < c.left.width && 0 <= j < c.left.height ==> output[i, j] == Base(c, basedOnLeft, i, j)
    modifies output
    ensures forall i, j :: 0 <= i < c.left.width && 0 <= j < c.left.height ==> output[i, j] == Expected(c, basedOnLeft, i, j)
    ensures diffs == TotalDiffs(c)
  {
    var width, height := c.left.width, c.left.height;
    diffs := 0;
    for x := 0 to width
      invariant forall i, j :: 0 <= i < x && 0 <= j < height ==> output[i, j] == Expected(c, basedOnLeft, i, j)
      invariant forall i, j :: x <= i < width && 0 <= j < height ==> output[i, j] == Base(c, basedOnLeft, i, j)
      invariant diffs == CountGrid(CountedFlags(c), x, height)
    {
      diffs := ScanColumn(c, basedOnLeft, x, output, diffs);
    }
  }

  /** The inner loop of the scan: column x, row by row. */
  method ScanColumn(c: Comparison, basedOnLeft: bool, x: nat, output: array2<Pixel>, diffs: U32)
    returns (newDiffs: U32)
    requires c.Valid() && x < c.left.width
    requires c.left.width * c.left.height < 0x1_0000_0000
    requires output.Length0 == c.left.width && output.Length1 == c.left.height
    requires diffs == CountGrid(CountedFlags(c), x, c.left.height)
    requires forall j :: 0 <= j < c.left.height ==> output[x, j] == Base(c, basedOnLeft, x, j)
    modifies output
    ensures newDiffs == CountGrid(CountedFlags(c), x + 1, c.left.height)
    ensures forall j :: 0 <= j < c.left.height ==> output[x, j] == Expected(c, basedOnLeft, x, j)
    ensures forall i, j :: 0 <= i < output.Length0 && 0 <= j < output.Length1 && i != x ==>
              output[i, j] == old(output[i, j])
  {
    newDiffs := diffs;
    for y := 0 to c.left.height
      invariant forall j :: 0 <= j < y ==> output[x, j] == Expected(c, basedOnLeft, x, j)
      invariant forall j :: y <= j < c.left.height ==> output[x, j] == Base(c, basedOnLeft, x, j)
      invariant forall i, j :: 0 <= i < output.Length0 && 0 <= j < output.Length1 && i != x ==>
                  output[i, j] == old(output[i, j])
      invariant newDiffs == CountGrid(CountedFlags(c), x, c.left.height) + CountColumn(CountedFlags(c), x, y)
    {
      newDiffs := VisitPixel(c, basedOnLeft, x, y, output, newDiffs);
    }
  }

  /** The loop body for one coordinate: compare, then count and paint red. */
  method VisitPixel(c: Comparison, basedOnLeft: bool, x: nat, y: nat, output: array2<Pixel>, diffs: U32)
    returns (newDiffs: U32)
    requires c.Valid() && c.InDomain(x, y)
    requires c.left.width * c.left.height < 0x1_0000_0000
    requires output.Length0 == c.left.width && output.Length1 == c.left.height
    requires diffs == CountGrid(CountedFlags(c), x, c.left.height) + CountColumn(CountedFlags(c), x, y)
    requires output[x, y] == Base(c, basedOnLeft, x, y)
    modifies output
    ensures newDiffs == CountGrid(CountedFlags(c), x, c.left.height) + CountColumn(CountedFlags(c), x, y + 1)
    ensures output[x, y] == Expected(c, basedOnLeft, x, y)
    ensures forall i, j :: 0 <= i < output.Length0 && 0 <= j < output.Length1 && (i != x || j != y) ==>
              output[i, j] == old(output[i, j])
  {
    newDiffs := diffs;
    var isDifferent := ComparePixel(c, x, y, output);
    assert CountedFlags(c)(x, y) == isDifferent;
    if isDifferent {
      CounterFits(CountedFlags(c), x, y, c.left.width, c.left.height);
      newDiffs := newDiffs + 1;
      output[x, y] := RedPixel;
    }
  }

  /** The body of the scan for one coordinate: decides whether (x, y) is a
      difference and paints an anti-aliased pixel yellow on the spot. */
  method ComparePixel(c: Comparison, x: nat, y: nat, output: array2<Pixel>) returns (isDifferent: bool)
    requires c.Valid() && c.InDomain(x, y)
    requires output.Length0 == c.left.width && output.Length1 == c.left.height
    modifies output
    ensures isDifferent == Counted(Classify(c, x, y))
    ensures output[x, y] == if Classify(c, x, y) == AntiAliased then YellowPixel else old(output[x, y])
    ensures forall i, j :: 0 <= i < output.Length0 && 0 <= j < output.Length1 && (i != x || j != y) ==>
              output[i, j] == old(output[i, j])
  {
    var left, right := c.left, c.right;
    isDifferent := false;
    if right.InBounds(x, y) {
      var l, r := left.At(x, y), right.At(x, y);
      if l == r {
        return;
      }
      // In `run` the distance is `Delta`, the squared YIQ distance of the two colours.
      var delta := c.distance(l, r);
      if Abs(delta) > c.threshold {
        if !c.includeAntiAliasing
          && (c.antialiased(left, x, y, left.width, left.height, right)
              || c.antialiased(right, x, y, left.width, left.height, left))
        {
          output[x, y] := YellowPixel;
          isDifferent := false;
        } else {
          isDifferent := true;
        }
      }
    } else {
      isDifferent := true;
    }
  }

  /** While column x is scanned, the counter stays below width * height, so
      the source's `u32` increment cannot overflow. */
  lemma CounterFits(f: Flags, x: nat, y: nat, width: nat, height: nat)
    requires x < width && y < height
    ensures CountGrid(f, x, height) + CountColumn(f, x, y) < width * height
  {
    CountGridBound(f, x, height);
    MulSucc(x, height);
    MulLeq(x + 1, width, height);
  }

  lemma MulLeq(a: nat, b: nat, h: nat)
    requires a <= b
    ensures a * h <= b * h
  {
    assert b * h == a * h + (b - a) * h;
  }
}

/** Properties of the comparison, stated over the specification of `Run`. */
module DiffProperties {
  import opened Pixels
  import opened Diff

  function FlaggedInColumn(f: Flags, x: nat, n: nat): set<(nat, nat)> {
    set y: nat | y < n && f(x, y) :: (x, y)
  }

  function Flagged(f: Flags, m: nat, h: nat): set<(nat, nat)> {
    set x: nat, y: nat | x < m && y < h && f(x, y) :: (x, y)
  }

  lemma {:induction false} CountColumnPositive(f: Flags, x: nat, n: nat)
    ensures CountColumn(f, x, n) > 0 <==> exists y :: 0 <= y < n && f(x, y)
  {
    if n > 0 {
      CountColumnPositive(f, x, n - 1);
    }
  }

  lemma {:induction false} CountGridPositive(f: Flags, m: nat, h: nat)
    ensures CountGrid(f, m, h) > 0 <==> exists x, y :: 0 <= x < m && 0 <= y < h && f(x, y)
  {
    if m > 0 {
      CountGridPositive(f, m - 1, h);
      CountColumnPositive(f, m - 1, h);
    }
  }

  lemma {:induction false} CountColumnCardinality(f: Flags, x: nat, n: nat)
    ensures |FlaggedInColumn(f, x, n)| == CountColumn(f, x, n)
  {
    if n == 0 {
      assert FlaggedInColumn(f, x, n) == {};
    } else {
      CountColumnCardinality(f, x, n - 1);
      var prev := FlaggedInColumn(f, x, n - 1);
      assert (x, n - 1) !in prev;
      if f(x, n - 1) {
        assert FlaggedInColumn(f, x, n) == prev + {(x, n - 1)};
      } else {
        assert FlaggedInColumn(f, x, n) == prev;
      }
    }
  }

  lemma {:induction false} CountGridCardinality(f: Flags, m: nat, h: nat)
    ensures |Flagged(f, m, h)| == CountGrid(f, m, h)
  {
    if m == 0 {
      assert Flagged(f, m, h) == {};
    } else {
      CountGridCardinality(f, m - 1, h);
      CountColumnCardinality(f, m - 1, h);
      var prev, col := Flagged(f, m - 1, h), FlaggedInColumn(f, m - 1, h);
      assert Flagged(f, m, h) == prev + col;
      assert prev !! col;
    }
  }

  /** `Run` returns `Some` (and the image is written) exactly when some
      coordinate is out of bounds or a real difference. */
  lemma SomeIffCounted(c: Comparison)
    requires c.Valid()
    ensures TotalDiffs(c) > 0 <==> exists x, y :: c.InDomain(x, y) && Counted(Classify(c, x, y))
  {
    var f := CountedFlags(c);
    CountGridPositive(f, c.left.width, c.left.height);
    if TotalDiffs(c) > 0 {
      var x, y :| 0 <= x < c.left.width && 0 <= y < c.left.height && f(x, y);
      assert c.InDomain(x, y) && Counted(Classify(c, x, y));
    }
    if exists x, y :: c.InDomain(x, y) && Counted(Classify(c, x, y)) {
      var x, y :| c.InDomain(x, y) && Counted(Classify(c, x, y));
      assert f(x, y);
    }
  }

  /** The coordinates that count as differences. */
  function CountedCells(c: Comparison): set<(nat, nat)>
    requires c.Valid()
  {
    set x: nat, y: nat | x < c.left.width && y < c.left.height && Counted(Classify(c, x, y)) :: (x, y)
  }

  /** The returned count is the number of coordinates painted red for being
      out of bounds or different, and never exceeds width * height. */
  lemma CountIsCountedCells(c: Comparison)
    requires c.Valid()
    ensures TotalDiffs(c) == |CountedCells(c)|
    ensures TotalDiffs(c) <= c.left.width * c.left.height
  {
    var f := CountedFlags(c);
    CountGridCardinality(f, c.left.width, c.left.height);
    assert CountedCells(c) == Flagged(f, c.left.width, c.left.height);
    CountGridBound(f, c.left.width, c.left.height);
  }

  /** On a blank canvas the red cells are exactly the counted ones; on any
      base, a cell that is identical or below the threshold keeps its base
      pixel. */
  lemma PaintedCells(c: Comparison, basedOnLeft: bool, x: nat, y: nat)
    requires c.Valid() && c.InDomain(x, y)
    ensures Expected(c, false, x, y) == RedPixel <==> Counted(Classify(c, x, y))
    ensures Classify(c, x, y) in {Identical, BelowThreshold} ==>
              Expected(c, basedOnLeft, x, y) == Base(c, basedOnLeft, x, y)
  {
  }

  /** Comparing an image with itself finds no difference, whatever the
      threshold and detector. */
  lemma SelfComparison(c: Comparison)
    requires c.Valid() && c.left == c.right
    ensures forall x, y :: c.InDomain(x, y) ==> Classify(c, x, y) == Identical
    ensures TotalDiffs(c) == 0
  {
    SomeIffCounted(c);
  }

  /** Pixels that differ only in alpha have distance 0 and are never marked
      when the threshold is scaled from a user threshold. */
  lemma AlphaOnlyDifference(c: Comparison, t: real, x: nat, y: nat)
    requires c.Valid() && c.InDomain(x, y) && c.threshold == ScaledThreshold(t) && c.distance == Delta
    requires c.right.InBounds(x, y) && c.left.At(x, y).ToRgb() == c.right.At(x, y).ToRgb()
    ensures Classify(c, x, y) in {Identical, BelowThreshold}
  {
  }

  /** Raising the threshold never turns a pixel below the threshold into a
      marked one. */
  lemma ThresholdMonotone(c: Comparison, higher: real, x: nat, y: nat)
    requires c.Valid() && c.InDomain(x, y) && c.threshold <= higher
    requires Classify(c, x, y) == BelowThreshold
    ensures Classify(c.(threshold := higher), x, y) == BelowThreshold
  {
  }

  /** With anti-aliased pixels included, the detector is never consulted:
      no pixel is yellow and the classification does not depend on it. */
  lemma DetectorUnused(c: Comparison, other: Detector, x: nat, y: nat)
    requires c.Valid() && c.InDomain(x, y) && c.includeAntiAliasing
    ensures Classify(c, x, y) != AntiAliased
    ensures Classify(c, x, y) == Classify(c.(antialiased := other), x, y)
  {
  }

  /** A yellow (255, 255, 0) pixel against a transparent one, at threshold
      0.05, is a difference: the other three pixels of a 2x2 image are equal
      and the count is one. */
  lemma YellowPixelScenario(aa: Detector)
    ensures
      var black := Transparent;
      var left := Image(2, 2, [[Rgba(255, 255, 0, 255), black], [black, black]]);
      var right := Image(2, 2, [[black, black], [black, black]]);
      var c := Comparison(left, right, ScaledThreshold(0.05), true, aa, Delta);
      && c.Valid()
      && Classify(c, 0, 0) == Different
      && Classify(c, 1, 0) == Identical && Classify(c, 0, 1) == Identical && Classify(c, 1, 1) == Identical
      && TotalDiffs(c) == 1
  {
    var black := Transparent;
    var left := Image(2, 2, [[Rgba(255, 255, 0, 255), black], [black, black]]);
    var right := Image(2, 2, [[black, black], [black, black]]);
    var c := Comparison(left, right, ScaledThreshold(0.05), true, aa, Delta);
    assert c.Valid();
    assert ScaledThreshold(0.05) < 88.1;
    assert Delta(left.At(0, 0), right.At(0, 0)) > 88.1;
    assert Classify(c, 0, 0) == Different;
    var f := CountedFlags(c);
    assert f(0, 0) && !f(0, 1) && !f(1, 0) && !f(1, 1);
    assert CountColumn(f, 0, 2) == 1;
    assert CountColumn(f, 1, 2) == 0;
    assert CountGrid(f, 1, 2) == 1;
  }
}
