/**
  Overlap canvas expansion of the advanced downloader (create_overlap_image and its two fill
  helpers). For an overlap of p percent the panorama is placed on a larger black canvas, p
  percent wider and p/2 percent taller, and the new border is filled by copies:
  - the left and right borders wrap the panorama horizontally;
  - the top and bottom borders are a resampled band of the equator rows;
  - the four corners are blocks copied from the opposite corners of the panorama.

  The resampling (a LANCZOS resize of the equator rows) is a library call; it is an input here:
  stretched(bandHeight, row, col) is pixel (row, col) of the equator band resized to the width
  of the panorama and the given height.
 */
module Overlap {
  import opened Image

  /** Size of the expanded canvas and position of the panorama on it. */
  datatype Geometry = Geometry(newWidth: nat, newHeight: nat, offsetX: nat, offsetY: nat)

  /**
    int(width * (1 + p/100)), int(height * (1 + p/200)), int(width * p/200) and
    int(height * p/400), each the floor of the exact rational product.
   */
  function ExpandedGeometry(width: nat, height: nat, percent: nat): (g: Geometry)
    ensures g.newWidth * 100 <= width * (100 + percent) < (g.newWidth + 1) * 100
    ensures g.newHeight * 200 <= height * (200 + percent) < (g.newHeight + 1) * 200
    ensures g.offsetX * 200 <= width * percent < (g.offsetX + 1) * 200
    ensures g.offsetY * 400 <= height * percent < (g.offsetY + 1) * 400
  {
    Geometry(width * (100 + percent) / 100, height * (200 + percent) / 200,
             width * percent / 200, height * percent / 400)
  }

  /**
    The panorama sits on the canvas with a margin of offsetX columns on the left and at least
    as many (at most offsetX + width) on the right, and likewise vertically; so every strip
    copied from the panorama lies inside it.
   */
  predicate Fits(width: nat, height: nat, g: Geometry) {
    g.offsetX + width + g.offsetX <= g.newWidth <= g.offsetX + width + width &&
    g.offsetY + height + g.offsetY <= g.newHeight <= g.offsetY + height + height
  }

  /**
    The panorama fits centred on the expanded canvas: the right margin is the left one or one
    column wider, the bottom margin the top one or one row taller. The canvas is wider than
    the panorama exactly when width * p reaches 100, and taller exactly when height * p
    reaches 200. Up to 200 percent every copied strip lies inside the panorama.
   */
  lemma GeometryFits(width: nat, height: nat, percent: nat)
    ensures var g := ExpandedGeometry(width, height, percent);
      g.offsetX + width + g.offsetX <= g.newWidth <= g.offsetX + width + g.offsetX + 1 &&
      g.offsetY + height + g.offsetY <= g.newHeight <= g.offsetY + height + g.offsetY + 1 &&
      (g.newWidth > width <==> width * percent >= 100) &&
      (g.newHeight > height <==> height * percent >= 200) &&
      (percent <= 200 ==> Fits(width, height, g))
  {
    var g := ExpandedGeometry(width, height, percent);
    var qw := width * percent;
    var qh := height * percent;
    assert g.newWidth == (100 * width + qw) / 100 && g.offsetX == qw / 200 by {
      assert width * (100 + percent) == 100 * width + qw;
    }
    assert g.newHeight == (200 * height + qh) / 200 && g.offsetY == qh / 400 by {
      assert height * (200 + percent) == 200 * height + qh;
    }
    assert percent <= 200 ==> qw <= 200 * width && qh <= 400 * height by {
      if percent <= 200 {
        MulMonoRight(width, percent, 200);
        MulMonoRight(height, percent, 200);
      }
    }
    Margins(width, qw, 100);
    Margins(height, qh, 200);
  }

  /** A product grows with its second factor. */
  lemma MulMonoRight(a: nat, b: nat, c: nat)
    requires b <= c
    ensures a * b <= a * c
  {
  }

  /**
    One axis of the geometry, for a size a and the product q = a * p: the new size
    floor((d*a + q) / d) is a plus twice the margin floor(q / (2d)), or one more.
   */
  lemma Margins(a: nat, q: nat, d: nat)
    requires d == 100 || d == 200
    ensures var n, o := (d * a + q) / d, q / (2 * d);
      && a + o + o <= n <= a + o + o + 1
      && (n > a <==> q >= d)
      && (q <= 2 * d * a ==> n <= o + a + a)
  {
    if d == 100 {
      assert (100 * a + q) / 100 == a + q / 100;
    } else {
      assert (200 * a + q) / 200 == a + q / 200;
    }
  }

  /** The geometry of a 1024 x 512 panorama at 30 percent. */
  lemma Geometry1024At30()
    ensures ExpandedGeometry(1024, 512, 30) == Geometry(1331, 588, 153, 38)
  {
  }

  /**
    What the two border strips and the two equator bands leave on the canvas, over the pixel
    `under` that was there before: the left strip is the right edge of each panorama row, the
    right strip the left edge, the bands the stretched equator.
   */
  ghost function StripPixel(base: array2<RGB>, stretched: (nat, nat, nat) -> RGB, g: Geometry,
                            r: nat, c: nat, under: RGB): RGB
    reads base
    requires Fits(base.Length1, base.Length0, g)
    requires r < g.newHeight && c < g.newWidth
  {
    var w, h, ox, oy := base.Length1, base.Length0, g.offsetX, g.offsetY;
    if oy <= r < oy + h && c < ox then base[r - oy, w - ox + c]
    else if oy <= r < oy + h && ox + w <= c then base[r - oy, c - (ox + w)]
    else if r < oy && ox <= c < ox + w then stretched(oy, r, c - ox)
    else if oy + h <= r && ox <= c < ox + w then stretched(g.newHeight - (oy + h), r - (oy + h), c - ox)
    else under
  }

  /**
    What the corner copies leave over `under`, when both offsets are positive: top-left gets
    the top-right block of the panorama, top-right the top-left block, bottom-left the
    bottom-right block and bottom-right the bottom-left block, each offsetX by offsetY.
   */
  ghost function CornerPixel(base: array2<RGB>, ox: nat, oy: nat, r: nat, c: nat, under: RGB): RGB
    reads base
    requires ox <= base.Length1 && oy <= base.Length0
  {
    var w, h := base.Length1, base.Length0;
    if ox > 0 && oy > 0 then
      if InRect(r, c, 0, 0, oy, ox) then base[r, w - ox + c]
      else if InRect(r, c, 0, ox + w, oy, ox) then base[r, c - (ox + w)]
      else if InRect(r, c, oy + h, 0, oy, ox) then base[h - oy + (r - (oy + h)), w - ox + c]
      else if InRect(r, c, oy + h, ox + w, oy, ox) then base[h - oy + (r - (oy + h)), c - (ox + w)]
      else under
    else under
  }

  /** Pixel (r, c) of the expanded canvas: the pasted panorama on black, then the strips, then the corners. */
  ghost function ExpandedPixel(base: array2<RGB>, stretched: (nat, nat, nat) -> RGB, g: Geometry, r: nat, c: nat): RGB
    reads base
    requires Fits(base.Length1, base.Length0, g)
    requires r < g.newHeight && c < g.newWidth
  {
    var centre :=
      if InRect(r, c, g.offsetY, g.offsetX, base.Length0, base.Length1) then base[r - g.offsetY, c - g.offsetX]
      else Black;
    CornerPixel(base, g.offsetX, g.offsetY, r, c, StripPixel(base, stretched, g, r, c, centre))
  }

  /** _fill_corner_overlaps: four block copies, made only when both offsets are positive. */
  method FillCornerOverlaps(canvas: array2<RGB>, base: array2<RGB>, offsetX: nat, offsetY: nat)
    requires canvas != base
    requires offsetX <= base.Length1 && offsetY <= base.Length0
    requires offsetX + base.Length1 + offsetX <= canvas.Length1
    requires offsetY + base.Length0 + offsetY <= canvas.Length0
    modifies canvas
    ensures forall r, c :: 0 <= r < canvas.Length0 && 0 <= c < canvas.Length1 ==>
      canvas[r, c] == CornerPixel(base, offsetX, offsetY, r, c, old(canvas[r, c]))
  {
    var w, h := base.Length1, base.Length0;
    if offsetX > 0 && offsetY > 0 {
      PasteCrop(canvas, base, 0, w - offsetX, offsetY, offsetX, 0, 0);
      PasteCrop(canvas, base, 0, 0, offsetY, offsetX, 0, offsetX + w);
      PasteCrop(canvas, base, h - offsetY, w - offsetX, offsetY, offsetX, offsetY + h, 0);
      PasteCrop(canvas, base, h - offsetY, 0, offsetY, offsetX, offsetY + h, offsetX + w);
    }
  }

  /**
    _fill_overlap_borders: the left strip when offsetX > 0, the right strip when the canvas is
    wider than offsetX + width, the top band when offsetY > 0, the bottom band when the canvas
    is taller than offsetY + height, then the corners.
   */
  method FillOverlapBorders(canvas: array2<RGB>, base: array2<RGB>, g: Geometry, stretched: (nat, nat, nat) -> RGB)
    requires canvas != base
    requires Fits(base.Length1, base.Length0, g)
    requires canvas.Length0 == g.newHeight && canvas.Length1 == g.newWidth
    modifies canvas
    ensures forall r, c :: 0 <= r < canvas.Length0 && 0 <= c < canvas.Length1 ==>
      canvas[r, c] == CornerPixel(base, g.offsetX, g.offsetY, r, c, StripPixel(base, stretched, g, r, c, old(canvas[r, c])))
  {
    var w, h, ox, oy := base.Length1, base.Length0, g.offsetX, g.offsetY;
    StripsInOrder(canvas, base, g, stretched);
    FillCornerOverlaps(canvas, base, ox, oy);
  }

  /** The four strip copies of _fill_overlap_borders, in source order. */
  method StripsInOrder(canvas: array2<RGB>, base: array2<RGB>, g: Geometry, stretched: (nat, nat, nat) -> RGB)
    requires canvas != base
    requires Fits(base.Length1, base.Length0, g)
    requires canvas.Length0 == g.newHeight && canvas.Length1 == g.newWidth
    modifies canvas
    ensures forall r, c :: 0 <= r < canvas.Length0 && 0 <= c < canvas.Length1 ==>
      canvas[r, c] == StripPixel(base, stretched, g, r, c, old(canvas[r, c]))
  {
    label start:
    PasteSides(canvas, base, g);
    label sides:
    PasteBands(canvas, base, g, stretched);
    assert forall r, c :: 0 <= r < canvas.Length0 && 0 <= c < canvas.Length1 ==>
      canvas[r, c] == BandPixel(base, stretched, g, r, c, SidePixel(base, g, r, c, old@start(canvas[r, c])));
  }

  /** The wrap strips over `under`: the first two cases of StripPixel. */
  ghost function SidePixel(base: array2<RGB>, g: Geometry, r: nat, c: nat, under: RGB): RGB
    reads base
    requires Fits(base.Length1, base.Length0, g)
    requires c < g.newWidth
  {
    var w, h, ox, oy := base.Length1, base.Length0, g.offsetX, g.offsetY;
    if oy <= r < oy + h && c < ox then base[r - oy, w - ox + c]
    else if oy <= r < oy + h && ox + w <= c then base[r - oy, c - (ox + w)]
    else under
  }

  /** The equator bands over `under`: the last two cases of StripPixel. */
  ghost function BandPixel(base: array2<RGB>, stretched: (nat, nat, nat) -> RGB, g: Geometry,
                           r: nat, c: nat, under: RGB): RGB
    reads base
    requires Fits(base.Length1, base.Length0, g)
    requires r < g.newHeight
  {
    var w, h, ox, oy := base.Length1, base.Length0, g.offsetX, g.offsetY;
    if r < oy && ox <= c < ox + w then stretched(oy, r, c - ox)
    else if oy + h <= r && ox <= c < ox + w then stretched(g.newHeight - (oy + h), r - (oy + h), c - ox)
    else under
  }

  /** The two wrap strips: the right edge of each panorama row on the left, the left edge on the right. */
  method PasteSides(canvas: array2<RGB>, base: array2<RGB>, g: Geometry)
    requires canvas != base
    requires Fits(base.Length1, base.Length0, g)
    requires canvas.Length0 == g.newHeight && canvas.Length1 == g.newWidth
    modifies canvas
    ensures forall r, c :: 0 <= r < canvas.Length0 && 0 <= c < canvas.Length1 ==>
      canvas[r, c] == SidePixel(base, g, r, c, old(canvas[r, c]))
  {
    var w, h, ox, oy := base.Length1, base.Length0, g.offsetX, g.offsetY;
    if ox > 0 {
      PasteCrop(canvas, base, 0, w - ox, h, ox, oy, 0);
    }
    if g.newWidth > ox + w {
      PasteCrop(canvas, base, 0, 0, h, g.newWidth - (ox + w), oy, ox + w);
    }
  }

  /** The two equator bands above and below the panorama, at the height of their margins. */
  method PasteBands(canvas: array2<RGB>, base: array2<RGB>, g: Geometry, stretched: (nat, nat, nat) -> RGB)
    requires Fits(base.Length1, base.Length0, g)
    requires canvas.Length0 == g.newHeight && canvas.Length1 == g.newWidth
    modifies canvas
    ensures forall r, c :: 0 <= r < canvas.Length0 && 0 <= c < canvas.Length1 ==>
      canvas[r, c] == BandPixel(base, stretched, g, r, c, old(canvas[r, c]))
  {
    var w, h, ox, oy := base.Length1, base.Length0, g.offsetX, g.offsetY;
    if oy > 0 {
      Paste(canvas, 0, ox, oy, w, (i: nat, j: nat) => stretched(oy, i, j));
    }
    if g.newHeight > oy + h {
      var bandHeight := g.newHeight - (oy + h);
      Paste(canvas, oy + h, ox, bandHeight, w, (i: nat, j: nat) => stretched(bandHeight, i, j));
    }
  }

  /**
    Whether resizing the 20-row equator crop, which is always `width` columns wide, to
    width x bandHeight raises: PIL returns a copy when the size is unchanged and otherwise
    rejects a target with no columns or no rows.
   */
  predicate ResizeRaises(width: nat, bandHeight: nat) {
    bandHeight != 20 && (width == 0 || bandHeight == 0)
  }

  /**
    Whether _fill_overlap_borders raises: the top band is resized when offsetY > 0, the bottom
    band when the canvas is taller than offsetY + height. Every other call it makes succeeds.
   */
  predicate BordersRaise(width: nat, height: nat, g: Geometry) {
    (g.offsetY > 0 && ResizeRaises(width, g.offsetY)) ||
    (g.newHeight > g.offsetY + height && ResizeRaises(width, g.newHeight - (g.offsetY + height)))
  }

  /** The fill raises only for a panorama without columns. */
  lemma BordersRaiseOnlyWithoutColumns(width: nat, height: nat, percent: nat)
    ensures BordersRaise(width, height, ExpandedGeometry(width, height, percent)) ==> width == 0
  {
  }

  /** A 0 x 512 panorama at 10 percent: bands of 12 and 13 rows, neither of which PIL can resize to. */
  lemma ZeroWidthAt10Raises()
    ensures ExpandedGeometry(0, 512, 10) == Geometry(0, 537, 0, 12)
    ensures BordersRaise(0, 512, ExpandedGeometry(0, 512, 10))
  {
  }

  /**
    create_overlap_image. A percentage of 0 or less returns the panorama itself; otherwise a
    new black canvas of the expanded size receives the panorama at (offsetX, offsetY) and the
    border fills. When the fill raises, the handler discards the canvas and returns the
    panorama itself. The percentage comes from a menu offering 0 to 50.
   */
  method CreateOverlapImage(base: array2<RGB>, percent: int, stretched: (nat, nat, nat) -> RGB)
    returns (result: array2<RGB>, g: Geometry)
    requires percent <= 50
    ensures percent <= 0 ==> result == base
    ensures percent > 0 ==> g == ExpandedGeometry(base.Length1, base.Length0, percent)
    ensures percent > 0 && BordersRaise(base.Length1, base.Length0, g) ==> result == base
    ensures percent > 0 && !BordersRaise(base.Length1, base.Length0, g) ==>
      && fresh(result)
      && Fits(base.Length1, base.Length0, g)
      && result.Length0 == g.newHeight && result.Length1 == g.newWidth
      && forall r, c :: 0 <= r < result.Length0 && 0 <= c < result.Length1 ==>
           result[r, c] == ExpandedPixel(base, stretched, g, r, c)
  {
    if percent <= 0 {
      return base, Geometry(base.Length1, base.Length0, 0, 0);
    }
    var w, h := base.Length1, base.Length0;
    g := ExpandedGeometry(w, h, percent);
    GeometryFits(w, h, percent);
    result := NewImage(g.newHeight, g.newWidth, Black);
    PasteCrop(result, base, 0, 0, h, w, g.offsetY, g.offsetX);
    if BordersRaise(w, h, g) {
      return base, g;
    }
    FillOverlapBorders(result, base, g, stretched);
  }

  /** The panorama itself is copied unchanged into the centre rectangle. */
  lemma CentreIsBase(base: array2<RGB>, stretched: (nat, nat, nat) -> RGB, g: Geometry, y: nat, x: nat)
    requires Fits(base.Length1, base.Length0, g)
    requires y < base.Length0 && x < base.Length1
    ensures ExpandedPixel(base, stretched, g, g.offsetY + y, g.offsetX + x) == base[y, x]
  {
  }

  /**
    Horizontal wrap-around, for every panorama row y: the left border continues the right
    edge of the row and the right border continues its left edge.
   */
  lemma HorizontalWrap(base: array2<RGB>, stretched: (nat, nat, nat) -> RGB, g: Geometry, y: nat, c: nat)
    requires Fits(base.Length1, base.Length0, g)
    requires y < base.Length0
    ensures c < g.offsetX ==>
      ExpandedPixel(base, stretched, g, g.offsetY + y, c) == base[y, base.Length1 - g.offsetX + c]
    ensures c < g.newWidth - g.offsetX - base.Length1 ==>
      ExpandedPixel(base, stretched, g, g.offsetY + y, g.offsetX + base.Length1 + c) == base[y, c]
  {
  }

  /**
    The top and bottom bands above and below the panorama are the stretched equator, at the
    height of the margin they fill.
   */
  lemma EquatorBands(base: array2<RGB>, stretched: (nat, nat, nat) -> RGB, g: Geometry, r: nat, x: nat)
    requires Fits(base.Length1, base.Length0, g)
    requires x < base.Length1
    ensures r < g.offsetY ==>
      ExpandedPixel(base, stretched, g, r, g.offsetX + x) == stretched(g.offsetY, r, x)
    ensures var top := g.offsetY + base.Length0;
      top <= r < g.newHeight ==>
      ExpandedPixel(base, stretched, g, r, g.offsetX + x) == stretched(g.newHeight - top, r - top, x)
  {
  }

  /**
    The corners, for i < offsetY and j < offsetX: each holds the block of the diagonally
    opposite corner of the panorama.
   */
  lemma Corners(base: array2<RGB>, stretched: (nat, nat, nat) -> RGB, g: Geometry, i: nat, j: nat)
    requires Fits(base.Length1, base.Length0, g)
    requires i < g.offsetY && j < g.offsetX
    ensures var w, h, ox, oy := base.Length1, base.Length0, g.offsetX, g.offsetY;
      && ExpandedPixel(base, stretched, g, i, j) == base[i, w - ox + j]
      && ExpandedPixel(base, stretched, g, i, ox + w + j) == base[i, j]
      && ExpandedPixel(base, stretched, g, oy + h + i, j) == base[h - oy + i, w - ox + j]
      && ExpandedPixel(base, stretched, g, oy + h + i, ox + w + j) == base[h - oy + i, j]
  {
  }

  /**
    A cell outside both the panorama rows and the panorama columns that no corner block
    reaches stays black: all four corner regions when an offset is 0, and otherwise the extra
    column on the right and the extra row at the bottom that appear when the far margin is
    one wider than the near one.
   */
  lemma UncoveredStaysBlack(base: array2<RGB>, stretched: (nat, nat, nat) -> RGB, g: Geometry, r: nat, c: nat)
    requires Fits(base.Length1, base.Length0, g)
    requires r < g.newHeight && c < g.newWidth
    requires !(g.offsetY <= r < g.offsetY + base.Length0) && !(g.offsetX <= c < g.offsetX + base.Length1)
    requires !(0 < g.offsetX && 0 < g.offsetY &&
               r < g.offsetY + base.Length0 + g.offsetY && c < g.offsetX + base.Length1 + g.offsetX)
    ensures ExpandedPixel(base, stretched, g, r, c) == Black
  {
  }
}
