/** The older entry point of src/main.rs: `difference`, which marks red every
    pixel whose squared YIQ distance exceeds the scaled threshold, and the
    case analysis of `main` over the -h, -l, -r, -o and -t options. */
module LegacyMain {
  import opened Wrappers
  import opened Pixels
  import opened Getopts
  import Yiq
  import YiqMatrix
  import Diff

  datatype DifferenceError = LayoutIsDifferent

  /** The colour `difference` leaves at (x, y) for a scaled threshold. */
  function Mark(left: Image, right: Image, threshold: real, x: nat, y: nat): (p: Pixel)
    requires left.Valid() && right.Valid() && left.InBounds(x, y) && right.InBounds(x, y)
    ensures p == Diff.RedPixel || p == Transparent
    ensures p == Diff.RedPixel && threshold >= 0.0 ==> left.At(x, y).ToRgb() != right.At(x, y).ToRgb()
  {
    var l, r := YiqMatrix.FromRgb(left.At(x, y).ToRgb()), YiqMatrix.FromRgb(right.At(x, y).ToRgb());
    if Yiq.SquaredDistance(l, r) > threshold then Diff.RedPixel else Transparent
  }

  /** `difference` on decoded images: an error when the layouts differ,
      otherwise a fresh left-sized canvas with the red marks. */
  method Difference(left: Image, right: Image, threshold: real)
    returns (res: Result<array2<Pixel>, DifferenceError>)
    requires left.Valid() && right.Valid()
    ensures res.Err? <==> left.Dimensions() != right.Dimensions()
    ensures res.Ok? ==>
      && fresh(res.value)
      && res.value.Length0 == left.width && res.value.Length1 == left.height
      && forall x, y :: 0 <= x < left.width && 0 <= y < left.height ==>
           res.value[x, y] == Mark(left, right, Diff.ScaledThreshold(threshold), x, y)
  {
    if left.Dimensions() != right.Dimensions() {
      return Err(LayoutIsDifferent);
    }
    var scaled := Diff.ScaledThreshold(threshold);
    var width, height := left.width, left.height;
    var output := new Pixel[width, height]((x: nat, y: nat) => Transparent);
    for x := 0 to width
      invariant forall i, j :: 0 <= i < x && 0 <= j < height ==> output[i, j] == Mark(left, right, scaled, i, j)
      invariant forall i, j :: x <= i < width && 0 <= j < height ==> output[i, j] == Transparent
    {
      MarkColumn(left, right, scaled, x, output);
    }
    return Ok(output);
  }

  /** The inner loop of `difference`: column x, row by row. */
  method MarkColumn(left: Image, right: Image, scaled: real, x: nat, output: array2<Pixel>)
    requires left.Valid() && right.Valid() && left.Dimensions() == right.Dimensions() && x < left.width
    requires output.Length0 == left.width && output.Length1 == left.height
    requires forall j :: 0 <= j < left.height ==> output[x, j] == Transparent
    modifies output
    ensures forall j :: 0 <= j < left.height ==> output[x, j] == Mark(left, right, scaled, x, j)
    ensures forall i, j :: 0 <= i < output.Length0 && 0 <= j < output.Length1 && i != x ==>
              output[i, j] == old(output[i, j])
  {
    for y := 0 to left.height
      invariant forall j :: 0 <= j < y ==> output[x, j] == Mark(left, right, scaled, x, j)
      invariant forall j :: y <= j < left.height ==> output[x, j] == Transparent
      invariant forall i, j :: 0 <= i < output.Length0 && 0 <= j < output.Length1 && i != x ==>
                  output[i, j] == old(output[i, j])
    {
      var lYiq := YiqMatrix.FromRgb(left.At(x, y).ToRgb());
      var rYiq := YiqMatrix.FromRgb(right.At(x, y).ToRgb());
      var delta := Yiq.SquaredDistance(lYiq, rYiq);
      if delta > scaled {
        output[x, y] := Diff.RedPixel;
      }
    }
  }

  /** Pixels with the same colour channels are never marked: their distance
      is 0, which is not above a threshold scaled from any user value. */
  lemma SameColourNeverMarked(left: Image, right: Image, t: real, x: nat, y: nat)
    requires left.Valid() && right.Valid() && left.InBounds(x, y) && right.InBounds(x, y)
    requires left.At(x, y).ToRgb() == right.At(x, y).ToRgb()
    ensures Mark(left, right, Diff.ScaledThreshold(t), x, y) == Transparent
  {
  }

  /** On images of equal size, `difference` marks exactly what `run` counts
      when it paints on a blank canvas without consulting the detector. */
  lemma AgreesWithRun(left: Image, right: Image, t: real, aa: Diff.Detector, x: nat, y: nat)
    requires left.Valid() && right.Valid() && left.Dimensions() == right.Dimensions()
    requires left.InBounds(x, y)
    ensures Mark(left, right, Diff.ScaledThreshold(t), x, y)
              == Diff.Expected(Diff.Comparison(left, right, Diff.ScaledThreshold(t), true, aa, Diff.Delta), false, x, y)
  {
    YiqMatrix.AgreesWithYiq(left.At(x, y).ToRgb());
    YiqMatrix.AgreesWithYiq(right.At(x, y).ToRgb());
  }

  datatype MainError = RightIsRequired | LeftIsRequired | InvalidThreshold(text: string)

  /** What `main` goes on to do. */
  datatype Step = PrintHelp | Compare(left: string, right: string, output: string, threshold: real) | Fail(error: MainError)

  /** The case analysis of `main`; `parse` stands for `str::parse::<f32>`. */
  function Dispatch(m: Matches, parse: string -> Option<real>): (step: Step)
    ensures step == PrintHelp <==> m.OptPresent("h") || (m.OptStr("l").None? && m.OptStr("r").None?)
    ensures step == Fail(RightIsRequired) <==> !m.OptPresent("h") && m.OptStr("l").Some? && m.OptStr("r").None?
    ensures step == Fail(LeftIsRequired) <==> !m.OptPresent("h") && m.OptStr("l").None? && m.OptStr("r").Some?
    ensures step.Compare? <==>
              && !m.OptPresent("h") && m.OptStr("l").Some? && m.OptStr("r").Some?
              && parse(m.OptStr("t").GetOr("0.1")).Some?
    ensures step.Compare? ==>
              && step.left == m.OptStr("l").value && step.right == m.OptStr("r").value
              && step.output == m.OptStr("o").GetOr("diff.png")
              && Some(step.threshold) == parse(m.OptStr("t").GetOr("0.1"))
  {
    if m.OptPresent("h") then PrintHelp
    else match (m.OptStr("l"), m.OptStr("r"))
      case (Some(l), Some(r)) =>
        var output := m.OptStr("o").GetOr("diff.png");
        var threshold := m.OptStr("t").GetOr("0.1");
        (match parse(threshold)
         case Some(t) => Compare(l, r, output, t)
         case None => Fail(InvalidThreshold(threshold)))
      case (Some(_), None) => Fail(RightIsRequired)
      case (None, Some(_)) => Fail(LeftIsRequired)
      case (None, None) => PrintHelp
  }
}
