/** Pixels, the two sentinel colours, rectangles and the abstract "over" operator
    shared by every scan and compositing operation on a map tile. */
module Pixels {

  /** An 8-bit colour channel. */
  newtype Channel = x: int | 0 <= x < 256

  /** A non-premultiplied RGBA pixel. */
  datatype Pixel = Pixel(r: Channel, g: Channel, b: Channel, a: Channel)

  /** Background white, fully opaque. */
  const WHITE := Pixel(255, 255, 255, 255)
  /** The fully transparent colour, which is also the zero value of a fresh buffer. */
  const TRANSP := Pixel(0, 0, 0, 0)
  /** A second fully transparent colour with white colour channels; the
      source declares it but no operation uses it. */
  const TRANSP2 := Pixel(255, 255, 255, 0)

  function Alpha(p: Pixel): Channel { p.a }

  /** pixelIsTransparent: only the alpha channel decides. */
  predicate IsTransparent(p: Pixel) { Alpha(p) == 0 }

  /** A content pixel is neither background white nor transparent. */
  predicate IsContent(p: Pixel) { p != WHITE && !IsTransparent(p) }

  /** A tile pixel as Go's `At` reads it on an NRGBA or RGBA buffer: outside
      the buffer it is the zero colour, TRANSP. */
  function PixelAt(img: array2<Pixel>, x: int, y: int): Pixel
    reads img
  {
    if 0 <= x < img.Length0 && 0 <= y < img.Length1 then img[x, y] else TRANSP
  }

  /** The scan loops alias their outer and inner variables to x and y: scan
      lines are columns when byRow is false and rows when it is true, and
      position `pos` on line `line` is the pixel (LineX, LineY). */
  function LineX(byRow: bool, line: int, pos: int): int { if byRow then pos else line }

  function LineY(byRow: bool, line: int, pos: int): int { if byRow then line else pos }

  /** The scan line that pixel (x, y) lies on, and its position along it. */
  function LineOf(byRow: bool, x: int, y: int): int { if byRow then y else x }

  function PosOf(byRow: bool, x: int, y: int): int { if byRow then x else y }

  /** Go's `%`, which truncates toward zero (Dafny's is Euclidean). */
  function GoRem(a: int, b: int): (r: int)
    requires b > 0
    ensures -b < r < b
    ensures a >= 0 ==> r >= 0
    ensures a < 0 ==> r <= 0
  {
    if a >= 0 then a % b else -((-a) % b)
  }

  /** Go's `/`, which truncates toward zero. */
  function GoQuot(a: int, b: int): int
    requires b > 0
  {
    if a >= 0 then a / b else -((-a) / b)
  }

  /** Go's quotient and remainder satisfy the division identity, so GoRem is
      the remainder of truncated division and nothing else. */
  lemma GoDivision(a: int, b: int)
    requires b > 0
    ensures a == GoQuot(a, b) * b + GoRem(a, b)
  {
    if a < 0 {
      assert -a == ((-a) / b) * b + (-a) % b;
    }
  }

  /** How a partially transparent source pixel mixes with the pixel below it;
      the arithmetic of this mix is not part of the model. */
  type Blend = (Pixel, Pixel) -> Pixel

  /** Porter-Duff "over" as far as the model needs it: a source with alpha 0
      leaves the destination alone and an opaque source replaces it. */
  function Over(src: Pixel, dst: Pixel, blend: Blend): Pixel
  {
    if Alpha(src) == 0 then dst else if Alpha(src) == 255 then src else blend(src, dst)
  }

  /** A half-open axis-aligned rectangle [minX, maxX) x [minY, maxY). */
  datatype Rectangle = Rectangle(minX: int, minY: int, maxX: int, maxY: int)

  /** image.Rect: the rectangle with corners (x0, y0) and (x1, y1), its
      coordinates swapped where needed so that min <= max. */
  function Rect(x0: int, y0: int, x1: int, y1: int): (r: Rectangle)
    ensures r.minX <= r.maxX && r.minY <= r.maxY
    ensures {r.minX, r.maxX} == {x0, x1} && {r.minY, r.maxY} == {y0, y1}
  {
    Rectangle(if x0 <= x1 then x0 else x1, if y0 <= y1 then y0 else y1,
              if x0 <= x1 then x1 else x0, if y0 <= y1 then y1 else y0)
  }

  predicate InRect(r: Rectangle, x: int, y: int)
  {
    r.minX <= x < r.maxX && r.minY <= y < r.maxY
  }

  datatype Option<+T> = None | Some(value: T)

  datatype Error = CouldNotDecode

  datatype Result<+T> = Ok(value: T) | Err(error: Error)
}
