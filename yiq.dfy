/** The perceptual colour model of src/yiq.rs: RGB to a luminance/chrominance
    triple, and a weighted squared distance between two triples. The
    arithmetic is exact over `real`. */
module Yiq {
  import opened Pixels

  /** Luminance y and the two chrominance components i and q. */
  datatype Yiq = Yiq(y: real, i: real, q: real)

  /** `YIQ::from_rgb`: the fixed NTSC-like linear transform. */
  function FromRgb(rgb: Rgb): (c: Yiq)
    ensures c.y >= 0.0
    ensures rgb == Rgb(0, 0, 0) ==> c == Yiq(0.0, 0.0, 0.0)
  {
    var r, g, b := rgb.r as real, rgb.g as real, rgb.b as real;
    Yiq(0.29889531 * r + 0.58662247 * g + 0.11448223 * b,
        0.59597799 * r - 0.2741716 * g - 0.32180189 * b,
        0.21147019 * r - 0.52261711 * g + 0.31114694 * b)
  }

  function Square(v: real): (s: real)
    ensures s >= 0.0
  {
    v * v
  }

  /** `YIQ::squared_distance`: luminance weighs most, then i, then q. */
  function SquaredDistance(a: Yiq, b: Yiq): (d: real)
    ensures d >= 0.0
    ensures a == b ==> d == 0.0
  {
    var dy, di, dq := b.y - a.y, b.i - a.i, b.q - a.q;
    0.5053 * Square(dy) + 0.299 * Square(di) + 0.1957 * Square(dq)
  }

  lemma SquaredDistanceSymmetric(a: Yiq, b: Yiq)
    ensures SquaredDistance(a, b) == SquaredDistance(b, a)
  {
    assert Square(b.y - a.y) == Square(a.y - b.y);
    assert Square(b.i - a.i) == Square(a.i - b.i);
    assert Square(b.q - a.q) == Square(a.q - b.q);
  }

  function Shift(a: Yiq, t: Yiq): Yiq {
    Yiq(a.y + t.y, a.i + t.i, a.q + t.q)
  }

  /** The distance sees only component differences. */
  lemma SquaredDistanceShift(a: Yiq, b: Yiq, t: Yiq)
    ensures SquaredDistance(Shift(a, t), Shift(b, t)) == SquaredDistance(a, b)
  {
    assert Shift(b, t).y - Shift(a, t).y == b.y - a.y;
    assert Shift(b, t).i - Shift(a, t).i == b.i - a.i;
    assert Shift(b, t).q - Shift(a, t).q == b.q - a.q;
  }

  /** The unit test's pair differs only in i and q, by 0.2 each way. */
  lemma SquaredDistanceExample()
    ensures SquaredDistance(Yiq(0.5, 0.1, -0.1), Yiq(0.5, -0.1, 0.1)) == 0.019788
  {
    assert Square(-0.2) == 0.04;
    assert Square(0.2) == 0.04;
  }

  /** `square_root_distance` returns the non-negative root of the squared
      distance; `d` is such a root. */
  predicate IsSquareRootDistance(a: Yiq, b: Yiq, d: real) {
    d >= 0.0 && Square(d) == SquaredDistance(a, b)
  }

  /** The root distance of a triple to itself is zero. */
  lemma SquareRootDistanceSame(a: Yiq)
    ensures IsSquareRootDistance(a, a, 0.0)
  {
  }
}
