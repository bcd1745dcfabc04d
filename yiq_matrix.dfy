/** The library form of the colour transform (src/lib.rs): each YIQ component
    is the dot product of one row of a constant 3x3 matrix with (r, g, b). */
module YiqMatrix {
  import opened Pixels
  import Yiq

  /** Rows give y, i and q in that order. */
  const Matrix: seq<seq<real>> := [
    [0.29889531, 0.58662247, 0.11448223],
    [0.59597799, -0.27417160, -0.32180189],
    [0.21147019, -0.52261711, 0.31114694]
  ]

  /** A colour vector over the reals, before or after the transform. */
  datatype Vec3 = Vec3(r: real, g: real, b: real) {
    function Plus(o: Vec3): Vec3 {
      Vec3(r + o.r, g + o.g, b + o.b)
    }
  }

  function Dot(row: seq<real>, v: Vec3): real
    requires |row| == 3
  {
    row[0] * v.r + row[1] * v.g + row[2] * v.b
  }

  /** The matrix applied to any real vector. */
  function Transform(v: Vec3): Yiq.Yiq {
    Yiq.Yiq(Dot(Matrix[0], v), Dot(Matrix[1], v), Dot(Matrix[2], v))
  }

  /** `YIQ::from_rgb` of src/lib.rs. */
  function FromRgb(rgb: Rgb): Yiq.Yiq {
    Transform(Vec3(rgb.r as real, rgb.g as real, rgb.b as real))
  }

  /** Black maps to the zero triple. */
  lemma FromRgbBlack()
    ensures FromRgb(Rgb(0, 0, 0)) == Yiq.Yiq(0.0, 0.0, 0.0)
  {
  }

  /** The transform is additive in the colour vector. */
  lemma TransformAdditive(u: Vec3, v: Vec3)
    ensures Transform(u.Plus(v)) == Yiq.Shift(Transform(u), Transform(v))
  {
  }

  /** Luminance is non-negative and never decreases when a channel grows,
      because the first row is all positive. */
  lemma LuminanceMonotone(a: Rgb, b: Rgb)
    requires a.r <= b.r && a.g <= b.g && a.b <= b.b
    ensures 0.0 <= FromRgb(a).y <= FromRgb(b).y
  {
  }

  /** The matrix holds the coefficients of src/yiq.rs, so both conversions
      give the same triple. */
  lemma AgreesWithYiq(rgb: Rgb)
    ensures FromRgb(rgb) == Yiq.FromRgb(rgb)
  {
  }
}
