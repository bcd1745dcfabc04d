/** The part of the `image` crate the comparison relies on: 8-bit RGBA
    pixels and decoded images that are only read. */
module Pixels {

  type Byte = b: int | 0 <= b < 256

  /** Image dimensions and coordinates are `u32` in the image crate. */
  type U32 = n: int | 0 <= n < 0x1_0000_0000

  /** An RGB triple, `image::Rgb<u8>`. */
  datatype Rgb = Rgb(r: Byte, g: Byte, b: Byte)

  /** An RGBA pixel, `image::Rgba<u8>`; equality compares all four channels. */
  datatype Pixel = Rgba(r: Byte, g: Byte, b: Byte, a: Byte) {
    /** `Pixel::to_rgb`: the colour channels, alpha dropped. */
    function ToRgb(): Rgb {
      Rgb(r, g, b)
    }
  }

  /** The all-zero pixel that `RgbaImage::new` fills a fresh canvas with. */
  const Transparent: Pixel := Rgba(0, 0, 0, 0)

  /** A decoded image, read-only for the whole comparison: `rows[y][x]` is
      the pixel at column x of row y. */
  datatype Image = Image(width: U32, height: U32, rows: seq<seq<Pixel>>) {

    predicate Valid() {
      |rows| == height && forall y :: 0 <= y < |rows| ==> |rows[y]| == width
    }

    /** `GenericImageView::dimensions`. */
    function Dimensions(): (U32, U32) {
      (width, height)
    }

    /** `GenericImageView::in_bounds`. */
    predicate InBounds(x: nat, y: nat) {
      x < width && y < height
    }

    /** `GenericImageView::get_pixel`, defined only inside the image. */
    function At(x: nat, y: nat): Pixel
      requires Valid() && InBounds(x, y)
    {
      rows[y][x]
    }
  }
}
