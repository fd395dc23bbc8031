/**
 * The grid tiler of pkg/image/image.go: a white canvas of `cols` by `rows` cells, each the size
 * of the first image, onto which image `idx` is copied at column `idx % cols`, row `idx / cols`.
 */
module Tiler {
  import opened Basics

  /** A colour as `image.RGBA` stores it. */
  datatype Color = Color(r: Byte, g: Byte, b: Byte, a: Byte)

  const White: Color := Color(255, 255, 255, 255)

  /** A decoded image with bounds (0, 0)-(width, height); `pix[y][x]` is the colour at (x, y). */
  datatype Raster = Raster(width: nat, height: nat, pix: seq<seq<Color>>) {
    predicate Valid() {
      |pix| == height && forall y :: 0 <= y < height ==> |pix[y]| == width
    }
  }

  type Picture = p: Raster | p.Valid() witness Raster(0, 0, [])

  // ---------------------------------------------------------------------------
  // Grid geometry
  // ---------------------------------------------------------------------------

  /** Left edge of the cell of image `idx`: `(idx % cols) * imgWidth`. */
  function CellX(idx: nat, cols: nat, w: nat): (x: nat)
    requires cols > 0
    ensures x + w <= cols * w
    ensures w > 0 ==> x % w == 0 && x / w == idx % cols
  {
    MulMonotone(idx % cols + 1, cols, w);
    MulDivExact(idx % cols, w);
    (idx % cols) * w
  }

  /** Top edge of the cell of image `idx`: `(idx / cols) * imgHeight`. */
  function CellY(idx: nat, cols: nat, h: nat): (y: nat)
    requires cols > 0
    ensures h > 0 ==> y % h == 0 && y / h == idx / cols
  {
    MulDivExact(idx / cols, h);
    (idx / cols) * h
  }

  /** A multiple of `w` divides by `w` exactly. */
  lemma MulDivExact(q: nat, w: nat)
    ensures w > 0 ==> (q * w) % w == 0 && (q * w) / w == q
  {
    if w > 0 {
      var d, r := (q * w) / w, (q * w) % w;
      assert (q - d) * w == r;
      if q - d >= 1 {
        MulMonotone(1, q - d, w);
      } else if q - d <= -1 {
        MulMonotone(q - d, -1, w);
      }
    }
  }

  /** (x, y) lies in the `w` by `h` rectangle with top-left corner (x0, y0). */
  predicate InRect(x0: int, y0: int, w: int, h: int, x: int, y: int) {
    x0 <= x < x0 + w && y0 <= y < y0 + h
  }

  /** (x, y) lies in the `w` by `h` cell of image `idx`. */
  predicate InCell(idx: nat, cols: nat, w: nat, h: nat, x: int, y: int)
    requires cols > 0
  {
    InRect(CellX(idx, cols, w), CellY(idx, cols, h), w, h, x, y)
  }

  /**
   * Drawing `img` into the cell of image `idx` with `draw.Src` writes (x, y): the cell clipped to
   * the bounds of `img` placed at the cell's corner.
   */
  predicate Covers(idx: nat, img: Picture, cols: nat, w: nat, h: nat, x: int, y: int)
    requires cols > 0
    ensures Covers(idx, img, cols, w, h, x, y) ==> InCell(idx, cols, w, h, x, y)
    ensures Covers(idx, img, cols, w, h, x, y) ==>
              y - CellY(idx, cols, h) < img.height && x - CellX(idx, cols, w) < img.width
  {
    InRect(CellX(idx, cols, w), CellY(idx, cols, h), Min(w, img.width), Min(h, img.height), x, y)
  }

  /**
   * The colour of canvas pixel (x, y) once `images` have been drawn, in order, over the white
   * background: the pixel of the last image that covers (x, y), white if none does.
   */
  function TiledPixel(images: seq<Picture>, cols: nat, w: nat, h: nat, x: int, y: int): (c: Color)
    requires cols > 0
    ensures c == White || exists k :: 0 <= k < |images| && Covers(k, images[k], cols, w, h, x, y)
  {
    if images == [] then White
    else
      var idx := |images| - 1;
      var img := images[idx];
      if Covers(idx, img, cols, w, h, x, y) then img.pix[y - CellY(idx, cols, h)][x - CellX(idx, cols, w)]
      else TiledPixel(images[..idx], cols, w, h, x, y)
  }

  /** The collage as a picture: `cols * w` wide and `rows * h` high, `w` and `h` taken from `images[0]`. */
  function Tiled(images: seq<Picture>, rows: nat, cols: nat): (t: Picture)
    requires images != [] && cols > 0
    ensures t.width == cols * images[0].width && t.height == rows * images[0].height
  {
    var w, h := images[0].width, images[0].height;
    Raster(cols * w, rows * h,
           seq(rows * h, y requires 0 <= y < rows * h =>
             seq(cols * w, x requires 0 <= x < cols * w => TiledPixel(images, cols, w, h, x, y))))
  }

  // ---------------------------------------------------------------------------
  // Properties of the layout
  // ---------------------------------------------------------------------------

  lemma MulMonotone(a: int, b: int, w: nat)
    requires a <= b
    ensures a * w <= b * w
  {
    assert b * w - a * w == (b - a) * w;
  }

  /**
   * Every cell fits in the width of the canvas, and a cell fits in its height exactly when its
   * index is below `rows * cols`.
   */
  lemma CellInCanvas(idx: nat, rows: nat, cols: nat, w: nat, h: nat)
    requires cols > 0 && h > 0
    ensures CellX(idx, cols, w) + w <= cols * w
    ensures CellY(idx, cols, h) + h <= rows * h <==> idx < rows * cols
  {
    var q, r := idx / cols, idx % cols;
    assert idx == q * cols + r;
    MulMonotone(r + 1, cols, w);
    if q < rows {
      MulMonotone(q + 1, rows, h);
      MulMonotone(q + 1, rows, cols);
    } else {
      MulMonotone(rows, q, cols);
      MulMonotone(rows + 1, q + 1, h);
    }
  }

  /** Cells of different indices share no pixel. */
  lemma CellsDisjoint(i: nat, j: nat, cols: nat, w: nat, h: nat, x: int, y: int)
    requires cols > 0
    ensures InCell(i, cols, w, h, x, y) && InCell(j, cols, w, h, x, y) ==> i == j
  {
    if InCell(i, cols, w, h, x, y) && InCell(j, cols, w, h, x, y) {
      SameCell(i % cols, j % cols, w, x);
      SameCell(i / cols, j / cols, h, y);
      assert i == (i / cols) * cols + i % cols;
      assert j == (j / cols) * cols + j % cols;
    }
  }

  /** A coordinate lies in at most one band `[a * w, a * w + w)`. */
  lemma SameCell(a: nat, b: nat, w: nat, x: int)
    requires a * w <= x < a * w + w && b * w <= x < b * w + w
    ensures a == b
  {
    if a < b {
      MulMonotone(a + 1, b, w);
    } else if b < a {
      MulMonotone(b + 1, a, w);
    }
  }

  /**
   * Images are copied, not blended: a pixel that image `idx` covers shows that image's pixel at
   * the same offset in its cell, since no other image's cell reaches it.
   */
  lemma {:induction false} TiledPixelInCell(images: seq<Picture>, cols: nat, w: nat, h: nat, idx: nat, x: int, y: int)
    requires cols > 0 && idx < |images|
    requires Covers(idx, images[idx], cols, w, h, x, y)
    ensures TiledPixel(images, cols, w, h, x, y)
            == images[idx].pix[y - CellY(idx, cols, h)][x - CellX(idx, cols, w)]
  {
    var last := |images| - 1;
    if idx < last {
      var img := images[last];
      CellsDisjoint(idx, last, cols, w, h, x, y);
      assert !Covers(last, img, cols, w, h, x, y);
      TiledPixelInCell(images[..last], cols, w, h, idx, x, y);
    }
  }

  /** A pixel that no image covers keeps the white background. */
  lemma {:induction false} TiledPixelOutside(images: seq<Picture>, cols: nat, w: nat, h: nat, x: int, y: int)
    requires cols > 0
    requires forall k :: 0 <= k < |images| ==> !Covers(k, images[k], cols, w, h, x, y)
    ensures TiledPixel(images, cols, w, h, x, y) == White
  {
    if images != [] {
      TiledPixelOutside(images[..|images| - 1], cols, w, h, x, y);
    }
  }

  /**
   * Row-major fill on a two-by-two grid with three images of one size: the first image is
   * top-left, the second top-right, the third bottom-left, and the bottom-right cell stays white.
   */
  lemma ThreeImagesOnTwoByTwo(images: seq<Picture>, x: nat, y: nat)
    requires |images| == 3
    requires forall k :: 0 <= k < 3 ==> images[k].width == images[0].width && images[k].height == images[0].height
    requires x < 2 * images[0].width && y < 2 * images[0].height
    ensures var w, h, t := images[0].width, images[0].height, Tiled(images, 2, 2);
            && (x < w && y < h ==> t.pix[y][x] == images[0].pix[y][x])
            && (w <= x && y < h ==> t.pix[y][x] == images[1].pix[y][x - w])
            && (x < w && h <= y ==> t.pix[y][x] == images[2].pix[y - h][x])
            && (w <= x && h <= y ==> t.pix[y][x] == White)
  {
    var w, h := images[0].width, images[0].height;
    assert CellX(0, 2, w) == 0 && CellY(0, 2, h) == 0;
    assert CellX(1, 2, w) == w && CellY(1, 2, h) == 0;
    assert CellX(2, 2, w) == 0 && CellY(2, 2, h) == h;
    if x < w && y < h {
      TiledPixelInCell(images, 2, w, h, 0, x, y);
    } else if y < h {
      TiledPixelInCell(images, 2, w, h, 1, x, y);
    } else if x < w {
      TiledPixelInCell(images, 2, w, h, 2, x, y);
    } else {
      TiledPixelOutside(images, 2, w, h, x, y);
    }
  }

  // ---------------------------------------------------------------------------
  // Drawing on the canvas
  // ---------------------------------------------------------------------------

  /** `draw.Draw(canvas, canvas.Bounds(), &image.Uniform{c}, image.Point{}, draw.Src)`. */
  method Fill(canvas: array2<Color>, c: Color)
    modifies canvas
    ensures forall y, x :: 0 <= y < canvas.Length0 && 0 <= x < canvas.Length1 ==> canvas[y, x] == c
  {
    var y := 0;
    while y < canvas.Length0
      invariant 0 <= y <= canvas.Length0
      invariant forall y', x' :: 0 <= y' < y && 0 <= x' < canvas.Length1 ==> canvas[y', x'] == c
    {
      var x := 0;
      while x < canvas.Length1
        invariant 0 <= x <= canvas.Length1
        invariant forall y', x' :: 0 <= y' < y && 0 <= x' < canvas.Length1 ==> canvas[y', x'] == c
        invariant forall x' :: 0 <= x' < x ==> canvas[y, x'] == c
      {
        canvas[y, x] := c;
        x := x + 1;
      }
      y := y + 1;
    }
  }

  /**
   * `draw.Draw(canvas, image.Rect(x0, y0, x0 + w, y0 + h), img, image.Point{}, draw.Src)`: the
   * rectangle, clipped to the canvas and to the bounds of `img` placed at (x0, y0), receives
   * `img`'s pixels; every other pixel keeps its colour.
   */
  method DrawSrc(canvas: array2<Color>, img: Picture, x0: nat, y0: nat, w: nat, h: nat)
    modifies canvas
    ensures forall y, x :: 0 <= y < canvas.Length0 && 0 <= x < canvas.Length1 ==>
              canvas[y, x] == if x0 <= x < x0 + Min(w, img.width) && y0 <= y < y0 + Min(h, img.height)
                              then img.pix[y - y0][x - x0] else old(canvas[y, x])
  {
    var xEnd := Min(x0 + Min(w, img.width), canvas.Length1);
    var yEnd := Min(y0 + Min(h, img.height), canvas.Length0);
    var y := y0;
    while y < yEnd
      invariant y0 <= y && (y <= yEnd || y == y0)
      invariant forall y', x' :: 0 <= y' < canvas.Length0 && 0 <= x' < canvas.Length1 ==>
                  canvas[y', x'] == if x0 <= x' < xEnd && y0 <= y' < y
                                    then img.pix[y' - y0][x' - x0] else old(canvas[y', x'])
    {
      var x := x0;
      while x < xEnd
        invariant x0 <= x && (x <= xEnd || x == x0)
        invariant forall y', x' :: 0 <= y' < canvas.Length0 && 0 <= x' < canvas.Length1 ==>
                    canvas[y', x'] == if x0 <= x' < xEnd && (y0 <= y' < y || (y' == y && x' < x))
                                      then img.pix[y' - y0][x' - x0] else old(canvas[y', x'])
      {
        canvas[y, x] := img.pix[y - y0][x - x0];
        x := x + 1;
      }
      y := y + 1;
    }
  }

  /**
   * `concat`: no image for an empty list; otherwise a fresh canvas of `cols * w` by `rows * h`
   * pixels, filled white, with image `idx` drawn into its cell in input order.
   */
  method ConcatImages(images: seq<Picture>, rows: nat, cols: nat) returns (canvas: Option<array2<Color>>)
    requires images != [] ==> cols > 0
    ensures canvas.None? <==> images == []
    ensures canvas.Some? ==> fresh(canvas.value)
    ensures canvas.Some? ==>
              var c, w, h := canvas.value, images[0].width, images[0].height;
              && c.Length0 == rows * h && c.Length1 == cols * w
              && forall y, x :: 0 <= y < c.Length0 && 0 <= x < c.Length1 ==>
                   c[y, x] == TiledPixel(images, cols, w, h, x, y)
  {
    if |images| == 0 {
      return None;
    }
    var w, h := images[0].width, images[0].height;
    var c := new Color[rows * h, cols * w];
    Fill(c, White);
    for idx := 0 to |images|
      invariant forall y, x :: 0 <= y < c.Length0 && 0 <= x < c.Length1 ==>
                  c[y, x] == TiledPixel(images[..idx], cols, w, h, x, y)
    {
      DrawSrc(c, images[idx], (idx % cols) * w, (idx / cols) * h, w, h);
      assert images[..idx + 1][..idx] == images[..idx];
    }
    assert images[..|images|] == images;
    return Some(c);
  }

  /** The canvas as a picture value, as the encoder reads it. */
  method Snapshot(c: array2<Color>) returns (p: Picture)
    ensures p.width == c.Length1 && p.height == c.Length0
    ensures forall y, x :: 0 <= y < c.Length0 && 0 <= x < c.Length1 ==> p.pix[y][x] == c[y, x]
  {
    var pixels := seq(c.Length0, y requires 0 <= y < c.Length0 reads c =>
                    seq(c.Length1, x requires 0 <= x < c.Length1 reads c => c[y, x]));
    p := Raster(c.Length1, c.Length0, pixels);
  }

  /** Two pictures of the same size with the same pixels are the same picture. */
  lemma SamePixels(p: Picture, q: Picture)
    requires p.width == q.width && p.height == q.height
    requires forall y, x :: 0 <= y < p.height && 0 <= x < p.width ==> p.pix[y][x] == q.pix[y][x]
    ensures p == q
  {
    forall y | 0 <= y < p.height
      ensures p.pix[y] == q.pix[y]
    {
    }
  }

  // ---------------------------------------------------------------------------
  // Decode, tile, encode
  // ---------------------------------------------------------------------------

  datatype ConcatError = DecodeFailed(index: nat) | EncodeFailed

  /** All buffers decoded, in their positions. */
  function Decoded(buffers: seq<seq<Byte>>, decode: seq<Byte> -> Option<Picture>): (r: seq<Picture>)
    requires forall k :: 0 <= k < |buffers| ==> decode(buffers[k]).Some?
    ensures |r| == |buffers|
  {
    seq(|buffers|, k requires 0 <= k < |buffers| => decode(buffers[k]).value)
  }

  function EncodeResult(bytes: Option<seq<Byte>>): Result<seq<Byte>, ConcatError> {
    match bytes
    case None => Err(EncodeFailed)
    case Some(b) => Ok(b)
  }

  /**
   * `Concat`: decodes every buffer into the same position, failing at the first buffer that does
   * not decode; then tiles the images and encodes the collage. `decode` and `encode` stand for
   * the image codec libraries.
   */
  method Concat(buffers: seq<seq<Byte>>, rows: nat, cols: nat,
                decode: seq<Byte> -> Option<Picture>, encode: Picture -> Option<seq<Byte>>)
    returns (r: Result<seq<Byte>, ConcatError>)
    requires buffers != [] && cols > 0
    ensures (forall k :: 0 <= k < |buffers| ==> decode(buffers[k]).Some?) ==>
              r == EncodeResult(encode(Tiled(Decoded(buffers, decode), rows, cols)))
    ensures (exists k :: 0 <= k < |buffers| && decode(buffers[k]).None?) ==> r.Err? && r.error.DecodeFailed?
    ensures r.Err? && r.error.DecodeFailed? ==>
              var j := r.error.index;
              && j < |buffers| && decode(buffers[j]).None?
              && forall k :: 0 <= k < j ==> decode(buffers[k]).Some?
  {
    var imgs := new Picture[|buffers|](_ => Raster(0, 0, []));
    for i := 0 to |buffers|
      invariant forall k :: 0 <= k < i ==> decode(buffers[k]) == Some(imgs[k])
    {
      var img := decode(buffers[i]);
      if img.None? {
        return Err(DecodeFailed(i));
      }
      imgs[i] := img.value;
    }
    var decoded := imgs[..];
    assert decoded == Decoded(buffers, decode);
    var canvas := ConcatImages(decoded, rows, cols);
    var collage := Snapshot(canvas.value);
    SamePixels(collage, Tiled(decoded, rows, cols));
    return EncodeResult(encode(collage));
  }
}
