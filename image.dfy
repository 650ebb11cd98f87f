/**
  Raster primitives shared by every part of the panorama engine. They stand in for the
  imaging library the downloaders use: 8-bit RGB pixels, images as two-dimensional arrays
  indexed [row, column] (Length0 is the height, Length1 the width), creation of a uniformly
  coloured image, pasting one image into another, and Python's float-to-int conversion and
  min/max clamping that the samplers apply to computed coordinates.
 */
module Image {

  newtype byte = x: int | 0 <= x < 256

  datatype RGB = RGB(r: byte, g: byte, b: byte)

  /** The fill colour of a freshly created image when no colour is given. */
  const Black := RGB(0, 0, 0)
  /** Placeholder for a tile answered with a status other than 200 (advanced and simple downloader). */
  const DarkGray := RGB(64, 64, 64)
  /** Placeholder for a tile whose request or decoding raised (advanced and simple downloader). */
  const ErrorRed := RGB(128, 0, 0)
  /** Uniform colour of the fallback cube faces, and of the error tile of the Selenium downloader. */
  const MidGray := RGB(128, 128, 128)

  /** Python's int() applied to a float: truncation toward zero. */
  function Trunc(x: real): (t: int)
    ensures 0.0 <= x ==> 0 <= t && t as real <= x < t as real + 1.0
    ensures x < 0.0 ==> t <= 0 && t as real - 1.0 < x <= t as real
  {
    if x >= 0.0 then x.Floor else -((-x).Floor)
  }

  /** Python's max(lo, min(hi, v)). */
  function Clamp(v: int, lo: int, hi: int): (c: int)
    ensures lo <= c
    ensures lo <= hi ==> c <= hi
    ensures lo <= v <= hi ==> c == v
    ensures v < lo ==> c == lo
    ensures lo <= hi < v ==> c == hi
  {
    if hi < v then (if hi < lo then lo else hi) else if v < lo then lo else v
  }

  /** Image.new('RGB', (width, height), colour). */
  method NewImage(height: nat, width: nat, colour: RGB) returns (img: array2<RGB>)
    ensures fresh(img)
    ensures img.Length0 == height && img.Length1 == width
    ensures forall r, c :: 0 <= r < height && 0 <= c < width ==> img[r, c] == colour
  {
    img := new RGB[height, width]((_, _) => colour);
  }

  ghost predicate InRect(r: int, c: int, top: int, left: int, height: int, width: int) {
    top <= r < top + height && left <= c < left + width
  }

  /**
    canvas.paste(src, (left, top)) for a source image of the given size whose pixel at
    (row, column) is src(row, column): the rectangle is overwritten, every other cell kept.
   */
  method Paste(canvas: array2<RGB>, top: nat, left: nat, height: nat, width: nat, src: (nat, nat) -> RGB)
    requires top + height <= canvas.Length0 && left + width <= canvas.Length1
    modifies canvas
    ensures forall r, c :: 0 <= r < canvas.Length0 && 0 <= c < canvas.Length1 ==>
      canvas[r, c] == if InRect(r, c, top, left, height, width) then src(r - top, c - left) else old(canvas[r, c])
  {
    var i := 0;
    while i < height
      invariant 0 <= i <= height
      invariant forall r, c :: 0 <= r < canvas.Length0 && 0 <= c < canvas.Length1 ==>
        canvas[r, c] == if InRect(r, c, top, left, i, width) then src(r - top, c - left) else old(canvas[r, c])
    {
      var j := 0;
      while j < width
        invariant 0 <= j <= width
        invariant forall r, c :: 0 <= r < canvas.Length0 && 0 <= c < canvas.Length1 ==>
          canvas[r, c] ==
            if InRect(r, c, top, left, i, width) || InRect(r, c, top + i, left, 1, j)
            then src(r - top, c - left) else old(canvas[r, c])
      {
        canvas[top + i, left + j] := src(i, j);
        j := j + 1;
      }
      i := i + 1;
    }
  }

  /**
    canvas.paste(src.crop((srcLeft, srcTop, srcLeft + width, srcTop + height)), (left, top)):
    copies a rectangle of another image, lying inside it, into the canvas.
   */
  method PasteCrop(canvas: array2<RGB>, src: array2<RGB>, srcTop: nat, srcLeft: nat,
                   height: nat, width: nat, top: nat, left: nat)
    requires canvas != src
    requires srcTop + height <= src.Length0 && srcLeft + width <= src.Length1
    requires top + height <= canvas.Length0 && left + width <= canvas.Length1
    modifies canvas
    ensures forall r, c :: 0 <= r < canvas.Length0 && 0 <= c < canvas.Length1 ==>
      canvas[r, c] ==
        if InRect(r, c, top, left, height, width) then src[srcTop + (r - top), srcLeft + (c - left)]
        else old(canvas[r, c])
  {
    var i := 0;
    while i < height
      invariant 0 <= i <= height
      invariant forall r, c :: 0 <= r < canvas.Length0 && 0 <= c < canvas.Length1 ==>
        canvas[r, c] ==
          if InRect(r, c, top, left, i, width) then src[srcTop + (r - top), srcLeft + (c - left)]
          else old(canvas[r, c])
    {
      var j := 0;
      while j < width
        invariant 0 <= j <= width
        invariant forall r, c :: 0 <= r < canvas.Length0 && 0 <= c < canvas.Length1 ==>
          canvas[r, c] ==
            if InRect(r, c, top, left, i, width) || InRect(r, c, top + i, left, 1, j)
            then src[srcTop + (r - top), srcLeft + (c - left)] else old(canvas[r, c])
      {
        canvas[top + i, left + j] := src[srcTop + i, srcLeft + j];
        j := j + 1;
      }
      i := i + 1;
    }
  }
}
