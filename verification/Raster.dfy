/** Raster validation, solid fill and aspect-fit scaling. */
module Raster {
  import opened Arithmetic
  import opened Wire
  import opened Bytes

  datatype TransferFormat = Rgb565 | Rgb888 | Xrgb8888
  {
    function BytesPerPixel(): (bpp: nat)
      ensures 2 <= bpp <= 4
    {
      match this
      case Rgb565 => 2
      case Rgb888 => 3
      case Xrgb8888 => 4
    }
  }

  datatype RgbColor = RgbColor(r: u8, g: u8, b: u8)

  const COLOR_BLACK := RgbColor(0, 0, 0)

  /** The bytes of one pixel, in the memory order of the DRM formats (little endian). */
  function PixelBytes(format: TransferFormat, color: RgbColor): (p: seq<u8>)
    ensures |p| == format.BytesPerPixel()
  {
    match format
    case Rgb565 =>
      var pixel := (color.r / 8) * 0x800 + (color.g / 4) * 0x20 + color.b / 8;
      [pixel % 0x100, pixel / 0x100]
    case Rgb888 => [color.b, color.g, color.r]
    case Xrgb8888 => [color.b, color.g, color.r, 0]
  }

  /** The channels can be read back from the bytes, the lowest byte first: 5, 6 and 5 bits of them, or all. */
  lemma PixelChannels(format: TransferFormat, color: RgbColor)
    ensures var p := PixelBytes(format, color);
      match format
      case Rgb565 =>
        var low: nat, high: nat := p[0], p[1];
        var word := low + 0x100 * high;
        |p| == 2 && word / 0x800 == color.r / 8 && word / 0x20 % 0x40 == color.g / 4 && word % 0x20 == color.b / 8
      case Rgb888 => |p| == 3 && p[0] == color.b && p[1] == color.g && p[2] == color.r
      case Xrgb8888 => |p| == 4 && p[0] == color.b && p[1] == color.g && p[2] == color.r && p[3] == 0
  {
    Fields(color.r / 8, color.g / 4, color.b / 8);
  }

  lemma Fields(r: nat, g: nat, b: nat)
    requires r < 32 && g < 64 && b < 32
    ensures var word := r * 0x800 + g * 0x20 + b;
      word / 0x800 == r && word / 0x20 % 0x40 == g && word % 0x20 == b && word % 0x100 + 0x100 * (word / 0x100) == word
  {
    assert (r * 0x800 + g * 0x20 + b) / 0x20 == r * 0x40 + g;
  }

  // ---------- aspect-fit layout ----------

  datatype ScaledLayout = ScaledLayout(x: nat, y: nat, width: nat, height: nat)

  /** The layout, or None when a size is zero. */
  function ComputeScaledLayout(sw: u32, sh: u32, dw: u32, dh: u32): Option<ScaledLayout> {
    if sw == 0 || sh == 0 || dw == 0 || dh == 0 then None
    else
      ProductFits(dw, sh);
      ProductFits(dh, sw);
      var area: u64 := dw * sh;
      var widthLimitedHeight := area / sw;
      if widthLimitedHeight <= dh then
        Centred(dw, dh, dw, if widthLimitedHeight < 1 then 1 else widthLimitedHeight)
      else
        var width := dh * sw / sh;
        HeightLimited(sw, sh, dw, dh);
        Centred(dw, dh, if width < 1 then 1 else width, dh)
  }

  function Centred(dw: u32, dh: u32, w: nat, h: nat): Option<ScaledLayout>
    requires w <= dw && h <= dh
  {
    Some(ScaledLayout((dw - w) / 2, (dh - h) / 2, w, h))
  }

  lemma HeightLimited(sw: nat, sh: nat, dw: nat, dh: nat)
    requires sw > 0 && sh > 0 && dw > 0 && dw * sh / sw > dh
    ensures dh * sw / sh <= dw
  {
    Quotient(dw * sh, sw);
    Below(dh, dw * sh / sw, sw);
    QuotientAtMost(dh * sw, sh, dw);
  }

  /** `h` is the height that belongs to the width `dw`, rounded down but at least one. */
  predicate FitsWidth(sw: nat, sh: nat, dw: nat, h: nat) {
    (h * sw <= dw * sh || h == 1) && dw * sh < h * sw + sw
  }

  lemma RoundedFitsWidth(sw: nat, sh: nat, dw: nat)
    requires sw > 0
    ensures FitsWidth(sw, sh, dw, if dw * sh / sw < 1 then 1 else dw * sh / sw)
  {
    Quotient(dw * sh, sw);
  }

  /**
   Inside the destination, along one whole axis, centred to within a pixel, and of the aspect ratio of the source
   as far as whole pixels allow; the width is the full one exactly when the matching height fits.
   */
  lemma LayoutFits(sw: u32, sh: u32, dw: u32, dh: u32)
    ensures ComputeScaledLayout(sw, sh, dw, dh).None? <==> sw == 0 || sh == 0 || dw == 0 || dh == 0
    ensures ComputeScaledLayout(sw, sh, dw, dh).Some? ==>
      var l := ComputeScaledLayout(sw, sh, dw, dh).value;
      && 0 < l.width && 0 < l.height
      && l.x + l.width <= dw && l.y + l.height <= dh
      && 0 <= dw - l.width - 2 * l.x <= 1 && 0 <= dh - l.height - 2 * l.y <= 1
      && (if dw * sh < dh * sw + sw
          then l.width == dw && (l.height * sw <= dw * sh || l.height == 1) && dw * sh < l.height * sw + sw
          else l.height == dh && (l.width * sh <= dh * sw || l.width == 1) && dh * sw < l.width * sh + sh)
  {
    if sw > 0 && sh > 0 && dw > 0 && dh > 0 {
      RoundedFitsWidth(sw, sh, dw);
      RoundedFitsWidth(sh, sw, dh);
      if dw * sh < dh * sw + sw {
        QuotientAtMost(dw * sh, sw, dh);
      } else {
        Distributes(dh, 1, sw);
        QuotientAtLeast(dw * sh, sw, dh + 1);
        HeightLimited(sw, sh, dw, dh);
      }
    }
  }

  /** Equal sizes are laid out unscaled. */
  lemma SameSizeLayout(w: u32, h: u32)
    requires w > 0 && h > 0
    ensures ComputeScaledLayout(w, h, w, h) == Some(ScaledLayout(0, 0, w, h))
  {
    Commutes(w, h);
    QuotientAtMost(w * h, w, h);
    QuotientAtLeast(w * h, w, h);
  }

  // ---------- validation ----------

  /** Whether a raster of the given geometry lies in `length` bytes, in 64-bit arithmetic. */
  predicate ValidRaster(length: nat, pitch: u64, width: nat, height: nat, bpp: nat) {
    && width > 0 && height > 0 && bpp > 0
    && width * bpp < TWO_TO_THE_64 && width * bpp <= pitch
    && pitch * height < TWO_TO_THE_64 && pitch * height <= length
  }

  /** No 64-bit product decides: a raster is valid exactly if its rows do not overlap and its buffer holds all of them. */
  lemma ValidRasterExactly(length: nat, pitch: u64, width: nat, height: nat, bpp: nat)
    requires length < TWO_TO_THE_64
    ensures ValidRaster(length, pitch, width, height, bpp) <==>
      width > 0 && height > 0 && bpp > 0 && width * bpp <= pitch && pitch * height <= length
  {}

  lemma RowInside(length: nat, pitch: u64, width: nat, height: nat, bpp: nat, y: nat)
    requires ValidRaster(length, pitch, width, height, bpp) && y < height
    ensures 0 <= y * pitch < TWO_TO_THE_64
    ensures y * pitch + width * bpp <= y * pitch + pitch <= pitch * height
  {
    Below(y, height, pitch);
    Commutes(height, pitch);
    Monotone(0, y, pitch);
  }

  lemma PixelInside(length: nat, pitch: u64, width: nat, height: nat, bpp: nat, y: nat, x: nat)
    requires ValidRaster(length, pitch, width, height, bpp) && y < height && x < width
    ensures 0 <= y * pitch < TWO_TO_THE_64 && 0 <= x * bpp
    ensures y * pitch + x * bpp + bpp <= y * pitch + width * bpp <= pitch * height
  {
    Monotone(0, x, bpp);
    RowInside(length, pitch, width, height, bpp, y);
    Below(x, width, bpp);
  }

  // ---------- solid fill ----------

  function SolidRow(pixel: seq<u8>, width: nat): (row: seq<u8>)
    ensures |row| == width * |pixel|
  {
    FlattenLength(seq(width, i => pixel), |pixel|);
    Flatten(seq(width, i => pixel))
  }

  function SolidRows(pixel: seq<u8>, width: nat, height: nat): (rows: seq<seq<u8>>)
    ensures |rows| == height && forall y :: 0 <= y < height ==> rows[y] == SolidRow(pixel, width)
  {
    seq(height, y => SolidRow(pixel, width))
  }

  lemma SolidPasteable(fb: seq<u8>, pitch: u64, width: nat, height: nat, pixel: seq<u8>, h: nat)
    requires ValidRaster(|fb|, pitch, width, height, |pixel|) && h <= height
    ensures Pasteable(|fb|, pitch, 0, SolidRows(pixel, width, h))
  {
    forall y | 0 <= y < h ensures Start(0, pitch, y) + |SolidRows(pixel, width, h)[y]| <= |fb| {
      StartIsProduct(0, pitch, y);
      RowInside(|fb|, pitch, width, height, |pixel|, y);
    }
  }

  /** `fb` with every visible pixel replaced. */
  function Filled(fb: seq<u8>, pitch: u64, width: nat, height: nat, pixel: seq<u8>): (r: seq<u8>)
    requires ValidRaster(|fb|, pitch, width, height, |pixel|)
    ensures |r| == |fb|
  {
    SolidPasteable(fb, pitch, width, height, pixel, height);
    Paste(fb, pitch, 0, SolidRows(pixel, width, height))
  }

  /** Where a pixel begins, or None when it does not lie inside the buffer. */
  method PixelOffset(length: u64, pitch: u64, x: nat, y: nat, bpp: nat) returns (offset: Option<u64>)
    ensures offset == if bpp > 0 && y * pitch + x * bpp + bpp <= length then Some(y * pitch + x * bpp) else None
  {
    var row: nat, column: nat := y * pitch, x * bpp;
    if bpp == 0 || row >= TWO_TO_THE_64 || column >= TWO_TO_THE_64 || row + column >= TWO_TO_THE_64 { return None; }
    if row + column + bpp >= TWO_TO_THE_64 || row + column + bpp > length { return None; }
    return Some(row + column);
  }

  /** One pixel, given by its bytes; refused exactly when it is not inside the buffer. */
  method WritePixel(fb: array<u8>, pitch: u64, x: nat, y: nat, pixel: seq<u8>) returns (ok: bool)
    requires fb.Length < TWO_TO_THE_64
    modifies fb
    ensures ok == (pixel != [] && y * pitch + x * |pixel| + |pixel| <= fb.Length)
    ensures ok ==> fb[..] == Splice(old(fb[..]), y * pitch + x * |pixel|, pixel)
    ensures !ok ==> fb[..] == old(fb[..])
  {
    var offset := PixelOffset(fb.Length, pitch, x, y, |pixel|);
    if offset.None? { return false; }
    Store(fb, offset.value, pixel);
    ok := true;
  }

  lemma SolidRowGrows(s: seq<u8>, row: nat, pixel: seq<u8>, x: nat)
    requires row + x * |pixel| + |pixel| <= |s|
    ensures (x + 1) * |pixel| == x * |pixel| + |pixel|
    ensures Splice(Splice(s, row, SolidRow(pixel, x)), row + x * |pixel|, pixel) == Splice(s, row, SolidRow(pixel, x + 1))
  {
    Distributes(x, 1, |pixel|);
    SpliceExtend(s, row, SolidRow(pixel, x), pixel);
    assert seq(x + 1, i => pixel)[..x] == seq(x, i => pixel);
  }

  lemma FilledGrows(fb: seq<u8>, pitch: u64, width: nat, height: nat, pixel: seq<u8>, y: nat)
    requires ValidRaster(|fb|, pitch, width, height, |pixel|) && y < height
    ensures Pasteable(|fb|, pitch, 0, SolidRows(pixel, width, y))
    ensures Pasteable(|fb|, pitch, 0, SolidRows(pixel, width, y + 1))
    ensures Start(0, pitch, y) + width * |pixel| <= |fb|
    ensures Paste(fb, pitch, 0, SolidRows(pixel, width, y + 1))
         == Splice(Paste(fb, pitch, 0, SolidRows(pixel, width, y)), Start(0, pitch, y), SolidRow(pixel, width))
  {
    SolidPasteable(fb, pitch, width, height, pixel, y + 1);
    assert SolidRows(pixel, width, y + 1) == SolidRows(pixel, width, y) + [SolidRow(pixel, width)];
    PasteNext(fb, pitch, 0, SolidRows(pixel, width, y), SolidRow(pixel, width));
  }

  /** The inner loop of the fill: after validation no pixel write is refused. */
  method FillRow(fb: array<u8>, pitch: u64, width: nat, height: nat, pixel: seq<u8>, y: nat)
    requires fb.Length < TWO_TO_THE_64
    requires ValidRaster(fb.Length, pitch, width, height, |pixel|) && y < height
    modifies fb
    ensures Start(0, pitch, y) + width * |pixel| <= fb.Length
    ensures fb[..] == Splice(old(fb[..]), Start(0, pitch, y), SolidRow(pixel, width))
  {
    ghost var was, row := fb[..], Start(0, pitch, y);
    StartIsProduct(0, pitch, y);
    RowInside(fb.Length, pitch, width, height, |pixel|, y);
    for x := 0 to width
      invariant row + x * |pixel| <= |was|
      invariant fb[..] == Splice(was, row, SolidRow(pixel, x))
    {
      PixelInside(fb.Length, pitch, width, height, |pixel|, y, x);
      var written := WritePixel(fb, pitch, x, y, pixel);
      assert written;
      SolidRowGrows(was, row, pixel, x);
    }
  }

  method FillSolid(fb: array<u8>, pitch: u64, width: nat, height: nat, format: TransferFormat, color: RgbColor)
    returns (ok: bool)
    requires fb.Length < TWO_TO_THE_64
    modifies fb
    ensures ok == ValidRaster(fb.Length, pitch, width, height, format.BytesPerPixel())
    ensures ok ==> fb[..] == Filled(old(fb[..]), pitch, width, height, PixelBytes(format, color))
    ensures !ok ==> fb[..] == old(fb[..])
  {
    ghost var was := fb[..];
    var pixel := PixelBytes(format, color);
    if !ValidRaster(fb.Length, pitch, width, height, format.BytesPerPixel()) { return false; }
    SolidPasteable(was, pitch, width, height, pixel, 0);
    for y := 0 to height
      invariant Pasteable(|was|, pitch, 0, SolidRows(pixel, width, y))
      invariant fb[..] == Paste(was, pitch, 0, SolidRows(pixel, width, y))
    {
      FilledGrows(was, pitch, width, height, pixel, y);
      FillRow(fb, pitch, width, height, pixel, y);
    }
    ok := true;
  }

  // ---------- scaling ----------

  /** `y * pitch + x * bpp`, by repeated addition (see `PixelBegins`). */
  function PixelStart(pitch: nat, bpp: nat, y: nat, x: nat): nat {
    Start(Start(0, bpp, x), pitch, y)
  }

  lemma PixelBegins(length: nat, pitch: u64, width: nat, height: nat, bpp: nat, y: nat, x: nat)
    requires ValidRaster(length, pitch, width, height, bpp) && y < height && x < width
    ensures PixelStart(pitch, bpp, y, x) == y * pitch + x * bpp && PixelStart(pitch, bpp, y, x) + bpp <= length
  {
    StartIsProduct(0, bpp, x);
    StartIsProduct(Start(0, bpp, x), pitch, y);
    PixelInside(length, pitch, width, height, bpp, y, x);
  }

  /** The source of a scaling operation. */
  datatype Image = Image(bytes: seq<u8>, pitch: u64, width: u32, height: u32, bpp: nat)
  {
    predicate Valid() { ValidRaster(|bytes|, pitch, width, height, bpp) }

    /** The bytes of one pixel. */
    function Pixel(y: nat, x: nat): (p: seq<u8>)
      requires Valid() && y < height && x < width
      ensures |p| == bpp
    {
      PixelBegins(|bytes|, pitch, width, height, bpp, y, x);
      var at := PixelStart(pitch, bpp, y, x);
      bytes[at..at + bpp]
    }

    /** Byte `b` of a pixel. */
    lemma PixelByte(y: nat, x: nat, b: nat)
      requires Valid() && y < height && x < width && b < bpp
      ensures 0 <= y * pitch + x * bpp && y * pitch + x * bpp + b < |bytes|
      ensures Pixel(y, x)[b] == bytes[y * pitch + x * bpp + b]
    {
      PixelBegins(|bytes|, pitch, width, height, bpp, y, x);
    }
  }

  /** The quotient, rounded down, by repeated subtraction (see `FloorIsQuotient`). */
  function Floor(n: nat, d: nat): nat
    requires d > 0
  {
    if n < d then 0 else 1 + Floor(n - d, d)
  }

  lemma {:induction false} FloorIsQuotient(n: nat, d: nat)
    requires d > 0
    ensures Floor(n, d) == n / d
  {
    if n >= d {
      FloorIsQuotient(n - d, d);
      assert n / d == (n - d) / d + 1 by {
        Quotient(n - d, d);
        Distributes((n - d) / d, 1, d);
        QuotientAtLeast(n, d, (n - d) / d + 1);
        QuotientAtMost(n, d, (n - d) / d + 1);
      }
    }
  }

  /** Source coordinate sampled for coordinate `d` of the layout: `d * source / scaled` (see `SampledIsQuotient`). */
  function Sampled(d: nat, source: nat, scaled: nat): (s: nat)
    requires d < scaled && source > 0
    ensures s < source
  {
    SampledBelow(d, source, scaled);
    Floor(Start(0, source, d), scaled)
  }

  lemma SampledBelow(d: nat, source: nat, scaled: nat)
    requires d < scaled && source > 0
    ensures Floor(Start(0, source, d), scaled) == d * source / scaled < source
  {
    StartIsProduct(0, source, d);
    FloorIsQuotient(d * source, scaled);
    Below(d, scaled, source);
    Commutes(scaled, source);
    Distributes(source - 1, 1, scaled);
    QuotientAtMost(d * source, scaled, source - 1);
  }

  lemma SampledIsQuotient(d: nat, source: nat, scaled: nat)
    requires d < scaled && source > 0
    ensures Sampled(d, source, scaled) == d * source / scaled
  {
    SampledBelow(d, source, scaled);
  }

  function ScaledRow(src: Image, l: ScaledLayout, y: nat, width: nat): (row: seq<u8>)
    requires src.Valid() && y < l.height && width <= l.width
    ensures |row| == width * src.bpp
  {
    FlattenLength(ScaledPixels(src, l, y, width), src.bpp);
    Flatten(ScaledPixels(src, l, y, width))
  }

  function ScaledPixels(src: Image, l: ScaledLayout, y: nat, width: nat): (pixels: seq<seq<u8>>)
    requires src.Valid() && y < l.height && width <= l.width
    ensures |pixels| == width && Uniform(pixels, src.bpp)
    ensures forall x :: 0 <= x < width ==>
      pixels[x] == src.Pixel(Sampled(y, src.height, l.height), Sampled(x, src.width, l.width))
  {
    seq(width, x requires 0 <= x < width =>
      src.Pixel(Sampled(y, src.height, l.height), Sampled(x, src.width, l.width)))
  }

  function ScaledRows(src: Image, l: ScaledLayout, height: nat): (rows: seq<seq<u8>>)
    requires src.Valid() && height <= l.height
    ensures |rows| == height
    ensures forall y :: 0 <= y < height ==> rows[y] == ScaledRow(src, l, y, l.width)
  {
    seq(height, y requires 0 <= y < height => ScaledRow(src, l, y, l.width))
  }

  ghost predicate Inside(l: ScaledLayout, dw: nat, dh: nat) {
    && 0 < l.width && 0 < l.height && l.x + l.width <= dw && l.y + l.height <= dh
  }

  /** First byte of the layout in the destination. */
  function Origin(l: ScaledLayout, pitch: u64, bpp: nat): nat {
    Start(Start(0, bpp, l.x), pitch, l.y)
  }

  lemma OriginRow(l: ScaledLayout, pitch: u64, bpp: nat, y: nat)
    ensures Start(Origin(l, pitch, bpp), pitch, y) == (l.y + y) * pitch + l.x * bpp
  {
    StartIsProduct(0, bpp, l.x);
    StartIsProduct(Start(0, bpp, l.x), pitch, l.y);
    StartIsProduct(Origin(l, pitch, bpp), pitch, y);
    Distributes(l.y, y, pitch);
  }

  lemma ScaledRowInside(n: nat, pitch: u64, dw: nat, dh: nat, bpp: nat, l: ScaledLayout, y: nat)
    requires ValidRaster(n, pitch, dw, dh, bpp) && Inside(l, dw, dh) && y < l.height
    ensures Start(Origin(l, pitch, bpp), pitch, y) == (l.y + y) * pitch + l.x * bpp
    ensures 0 <= (l.y + y) * pitch < TWO_TO_THE_64
    ensures 0 <= l.x * bpp && (l.x + l.width) * bpp <= dw * bpp <= pitch
    ensures (l.y + y) * pitch + (l.x + l.width) * bpp <= pitch * dh
    ensures l.width * bpp <= pitch && l.x * bpp + l.width * bpp == (l.x + l.width) * bpp
  {
    OriginRow(l, pitch, bpp, y);
    RowInside(n, pitch, dw, dh, bpp, l.y + y);
    Monotone(l.x + l.width, dw, bpp);
    Distributes(l.x, l.width, bpp);
    Monotone(0, l.x, bpp);
    Monotone(l.width, l.x + l.width, bpp);
  }

  lemma ScaledPasteable(n: nat, pitch: u64, dw: nat, dh: nat, src: Image, l: ScaledLayout, h: nat)
    requires src.Valid() && ValidRaster(n, pitch, dw, dh, src.bpp) && Inside(l, dw, dh) && h <= l.height
    ensures Pasteable(n, pitch, Origin(l, pitch, src.bpp), ScaledRows(src, l, h))
  {
    forall y | 0 <= y < h
      ensures Start(Origin(l, pitch, src.bpp), pitch, y) + |ScaledRows(src, l, h)[y]| <= n
    {
      ScaledRowInside(n, pitch, dw, dh, src.bpp, l, y);
    }
  }

  /** The scaled image over a black background. */
  function Scaled(src: Image, dst: seq<u8>, pitch: u64, dw: u32, dh: u32, l: ScaledLayout, black: seq<u8>): (r: seq<u8>)
    requires src.Valid() && |black| == src.bpp && ValidRaster(|dst|, pitch, dw, dh, src.bpp) && Inside(l, dw, dh)
    ensures |r| == |dst|
  {
    ScaledPasteable(|dst|, pitch, dw, dh, src, l, l.height);
    Paste(Filled(dst, pitch, dw, dh, black), pitch, Origin(l, pitch, src.bpp), ScaledRows(src, l, l.height))
  }

  lemma ScaledRowGrows(s: seq<u8>, at: nat, src: Image, l: ScaledLayout, y: nat, x: nat)
    requires src.Valid() && y < l.height && x < l.width
    requires at + x * src.bpp + src.bpp <= |s|
    ensures (x + 1) * src.bpp == x * src.bpp + src.bpp
    ensures Splice(Splice(s, at, ScaledRow(src, l, y, x)), at + x * src.bpp,
                   src.Pixel(Sampled(y, src.height, l.height), Sampled(x, src.width, l.width)))
         == Splice(s, at, ScaledRow(src, l, y, x + 1))
  {
    Distributes(x, 1, src.bpp);
    SpliceExtend(s, at, ScaledRow(src, l, y, x), src.Pixel(Sampled(y, src.height, l.height), Sampled(x, src.width, l.width)));
    assert ScaledPixels(src, l, y, x + 1)[..x] == ScaledPixels(src, l, y, x);
  }

  lemma ScaledRowsGrow(src: Image, l: ScaledLayout, y: nat)
    requires src.Valid() && y < l.height
    ensures ScaledRows(src, l, y + 1) == ScaledRows(src, l, y) + [ScaledRow(src, l, y, l.width)]
  {}

  lemma ScaledGrows(s: seq<u8>, pitch: u64, dw: nat, dh: nat, src: Image, l: ScaledLayout, at: nat, y: nat)
    requires src.Valid() && ValidRaster(|s|, pitch, dw, dh, src.bpp) && Inside(l, dw, dh) && y < l.height
    requires at == Origin(l, pitch, src.bpp)
    ensures Pasteable(|s|, pitch, at, ScaledRows(src, l, y)) && Pasteable(|s|, pitch, at, ScaledRows(src, l, y + 1))
    ensures Start(at, pitch, y) + l.width * src.bpp <= |s|
    ensures Paste(s, pitch, at, ScaledRows(src, l, y + 1))
         == Splice(Paste(s, pitch, at, ScaledRows(src, l, y)), Start(at, pitch, y), ScaledRow(src, l, y, l.width))
  {
    ScaledPasteable(|s|, pitch, dw, dh, src, l, y + 1);
    ScaledRowsGrow(src, l, y);
    PasteNext(s, pitch, at, ScaledRows(src, l, y), ScaledRow(src, l, y, l.width));
  }

  /** One pixel of the scaling: both offsets are inside their buffers and no 64-bit sum or product wraps. */
  method ScalePixel(src: Image, dst: array<u8>, pitch: u64, dw: u32, dh: u32, l: ScaledLayout, y: nat, x: nat,
                    sourceY: u32, sourceRow: u64, row: u64, ghost at: nat)
    requires src.Valid() && dst.Length < TWO_TO_THE_64
    requires ValidRaster(dst.Length, pitch, dw, dh, src.bpp) && Inside(l, dw, dh) && y < l.height && x < l.width
    requires sourceY == Sampled(y, src.height, l.height) && sourceRow == sourceY * src.pitch
    requires row == (l.y + y) * pitch && at == row + (l.x + x) * src.bpp
    modifies dst
    ensures at + src.bpp <= dst.Length
    ensures dst[..] == Splice(old(dst[..]), at, src.Pixel(sourceY, Sampled(x, src.width, l.width)))
  {
    ProductFits(x, src.width);
    var scaledX: u64 := x * src.width;
    SampledIsQuotient(x, src.width, l.width);
    var sourceX: u32 := scaledX / l.width;
    PixelInside(|src.bytes|, src.pitch, src.width, src.height, src.bpp, sourceY, sourceX);
    PixelBegins(|src.bytes|, src.pitch, src.width, src.height, src.bpp, sourceY, sourceX);
    var sourceOffset: u64 := sourceRow + sourceX * src.bpp;
    PixelInside(dst.Length, pitch, dw, dh, src.bpp, l.y + y, l.x + x);
    var offset: u64 := row + (l.x + x) * src.bpp;
    Store(dst, offset, src.bytes[sourceOffset..sourceOffset + src.bpp]);
  }

  lemma ScaledPixelAt(l: ScaledLayout, pitch: u64, bpp: nat, y: nat, x: nat, at: nat)
    requires at == Start(Origin(l, pitch, bpp), pitch, y) && x < l.width
    ensures (l.y + y) * pitch + (l.x + x) * bpp == at + x * bpp
    ensures x * bpp + bpp <= l.width * bpp
  {
    OriginRow(l, pitch, bpp, y);
    Distributes(l.x, x, bpp);
    Below(x, l.width, bpp);
  }

  /** The sampled source row, and where it and the destination row begin. */
  method RowOffsets(src: Image, length: nat, pitch: u64, dw: u32, dh: u32, l: ScaledLayout, y: nat)
    returns (sourceY: u32, sourceRow: u64, row: u64)
    requires src.Valid() && ValidRaster(length, pitch, dw, dh, src.bpp) && Inside(l, dw, dh) && y < l.height
    ensures sourceY == Sampled(y, src.height, l.height)
    ensures sourceRow == sourceY * src.pitch && row == (l.y + y) * pitch
  {
    ProductFits(y, src.height);
    var scaledY: u64 := y * src.height;
    SampledIsQuotient(y, src.height, l.height);
    sourceY := scaledY / l.height;
    RowInside(|src.bytes|, src.pitch, src.width, src.height, src.bpp, sourceY);
    sourceRow := sourceY * src.pitch;
    ScaledRowInside(length, pitch, dw, dh, src.bpp, l, y);
    row := (l.y + y) * pitch;
  }

  /** The next pixel of a row. */
  method ScaleNext(src: Image, dst: array<u8>, pitch: u64, dw: u32, dh: u32, l: ScaledLayout, y: nat, x: nat,
                   sourceY: u32, sourceRow: u64, row: u64, ghost at: nat, ghost was: seq<u8>)
    requires src.Valid() && dst.Length < TWO_TO_THE_64
    requires ValidRaster(dst.Length, pitch, dw, dh, src.bpp) && Inside(l, dw, dh) && y < l.height && x < l.width
    requires sourceY == Sampled(y, src.height, l.height) && sourceRow == sourceY * src.pitch
    requires row == (l.y + y) * pitch && at == Start(Origin(l, pitch, src.bpp), pitch, y)
    requires |was| == dst.Length && at + l.width * src.bpp <= |was|
    requires at + x * src.bpp <= |was| && dst[..] == Splice(was, at, ScaledRow(src, l, y, x))
    modifies dst
    ensures at + (x + 1) * src.bpp <= |was| && dst[..] == Splice(was, at, ScaledRow(src, l, y, x + 1))
  {
    ScaledPixelAt(l, pitch, src.bpp, y, x, at);
    ScalePixel(src, dst, pitch, dw, dh, l, y, x, sourceY, sourceRow, row, at + x * src.bpp);
    ScaledRowGrows(was, at, src, l, y, x);
  }

  /** The inner loop of the scaling. */
  method ScaleRow(src: Image, dst: array<u8>, pitch: u64, dw: u32, dh: u32, l: ScaledLayout, y: nat,
                  ghost at: nat)
    requires src.Valid() && dst.Length < TWO_TO_THE_64
    requires ValidRaster(dst.Length, pitch, dw, dh, src.bpp) && Inside(l, dw, dh) && y < l.height
    requires at == Start(Origin(l, pitch, src.bpp), pitch, y) && at + l.width * src.bpp <= dst.Length
    modifies dst
    ensures dst[..] == Splice(old(dst[..]), at, ScaledRow(src, l, y, l.width))
  {
    ghost var was := dst[..];
    var sourceY, sourceRow, row := RowOffsets(src, dst.Length, pitch, dw, dh, l, y);
    for x := 0 to l.width
      invariant at + x * src.bpp <= |was| && dst[..] == Splice(was, at, ScaledRow(src, l, y, x))
    {
      ScaleNext(src, dst, pitch, dw, dh, l, y, x, sourceY, sourceRow, row, at, was);
    }
  }

  /** The next row of the scaling. */
  method OverlayNext(src: Image, dst: array<u8>, pitch: u64, dw: u32, dh: u32, l: ScaledLayout, y: nat,
                     ghost was: seq<u8>, ghost at: nat)
    requires src.Valid() && dst.Length < TWO_TO_THE_64 && |was| == dst.Length && y < l.height
    requires ValidRaster(dst.Length, pitch, dw, dh, src.bpp) && Inside(l, dw, dh) && at == Origin(l, pitch, src.bpp)
    requires Pasteable(|was|, pitch, at, ScaledRows(src, l, y)) && dst[..] == Paste(was, pitch, at, ScaledRows(src, l, y))
    modifies dst
    ensures Pasteable(|was|, pitch, at, ScaledRows(src, l, y + 1))
    ensures dst[..] == Paste(was, pitch, at, ScaledRows(src, l, y + 1))
  {
    ScaledGrows(was, pitch, dw, dh, src, l, at, y);
    ScaleRow(src, dst, pitch, dw, dh, l, y, Start(at, pitch, y));
  }

  method Overlay(src: Image, dst: array<u8>, pitch: u64, dw: u32, dh: u32, l: ScaledLayout)
    requires src.Valid() && dst.Length < TWO_TO_THE_64
    requires ValidRaster(dst.Length, pitch, dw, dh, src.bpp) && Inside(l, dw, dh)
    requires Pasteable(dst.Length, pitch, Origin(l, pitch, src.bpp), ScaledRows(src, l, l.height))
    modifies dst
    ensures dst[..] == Paste(old(dst[..]), pitch, Origin(l, pitch, src.bpp), ScaledRows(src, l, l.height))
  {
    ghost var was, origin := dst[..], Origin(l, pitch, src.bpp);
    for y := 0 to l.height
      invariant Pasteable(|was|, pitch, origin, ScaledRows(src, l, y))
      invariant dst[..] == Paste(was, pitch, origin, ScaledRows(src, l, y))
    {
      OverlayNext(src, dst, pitch, dw, dh, l, y, was, origin);
    }
  }

  /** Fails, changing nothing, exactly when a size is zero or one of the rasters does not hold its image. */
  method ScaleToFit(src: seq<u8>, srcPitch: u64, sw: u32, sh: u32,
                    dst: array<u8>, pitch: u64, dw: u32, dh: u32, format: TransferFormat)
    returns (layout: Option<ScaledLayout>)
    requires dst.Length < TWO_TO_THE_64
    modifies dst
    ensures var bpp := format.BytesPerPixel();
      layout == if ValidRaster(|src|, srcPitch, sw, sh, bpp) && ValidRaster(dst.Length, pitch, dw, dh, bpp)
                then ComputeScaledLayout(sw, sh, dw, dh) else None
    ensures layout.None? ==> dst[..] == old(dst[..])
    ensures layout.Some? ==>
      && Inside(layout.value, dw, dh)
      && dst[..] == Scaled(Image(src, srcPitch, sw, sh, format.BytesPerPixel()),
                           old(dst[..]), pitch, dw, dh, layout.value, PixelBytes(format, COLOR_BLACK))
  {
    LayoutFits(sw, sh, dw, dh);
    var l := ComputeScaledLayout(sw, sh, dw, dh);
    if l.None? { return None; }
    var image := Image(src, srcPitch, sw, sh, format.BytesPerPixel());
    if !image.Valid() { return None; }
    if !ValidRaster(dst.Length, pitch, dw, dh, image.bpp) { return None; }
    var filled := FillSolid(dst, pitch, dw, dh, format, COLOR_BLACK);
    assert filled;
    ScaledPasteable(dst.Length, pitch, dw, dh, image, l.value, l.value.height);
    Overlay(image, dst, pitch, dw, dh, l.value);
    return l;
  }

  // ---------- what the images show: the byte at index `i` is byte `c` of row `y` ----------

  /** A fill colours every visible pixel. */
  lemma FilledPixel(fb: seq<u8>, pitch: u64, width: nat, height: nat, pixel: seq<u8>, y: nat, x: nat, b: nat, i: nat)
    requires ValidRaster(|fb|, pitch, width, height, |pixel|) && y < height && x < width && b < |pixel|
    requires i == y * pitch + x * |pixel| + b
    ensures i < |fb| && Filled(fb, pitch, width, height, pixel)[i] == pixel[b]
  {
    SolidPasteable(fb, pitch, width, height, pixel, height);
    PixelInside(|fb|, pitch, width, height, |pixel|, y, x);
    StartIsProduct(0, pitch, y);
    PasteInside(fb, pitch, 0, SolidRows(pixel, width, height), width * |pixel|, y, x * |pixel| + b);
    FlattenAt(seq(width, i => pixel), |pixel|, x, b);
  }

  lemma SolidRowMisses(pitch: nat, width: nat, k: nat, y: nat, c: nat, i: nat)
    requires i == y * pitch + c && width <= pitch
    requires k < y || (k == y && width <= c) || (y < k && c < pitch)
    ensures !(Start(0, pitch, k) <= i < Start(0, pitch, k) + width)
  {
    StartIsProduct(0, pitch, k);
    if k < y { Below(k, y, pitch); }
    if y < k { Below(y, k, pitch); }
  }

  /** A fill leaves the row padding and the bytes behind the last row alone. */
  lemma FilledElsewhere(fb: seq<u8>, pitch: u64, width: nat, height: nat, pixel: seq<u8>, y: nat, c: nat, i: nat)
    requires ValidRaster(|fb|, pitch, width, height, |pixel|) && i == y * pitch + c && i < |fb|
    requires y >= height || width * |pixel| <= c < pitch
    ensures Filled(fb, pitch, width, height, pixel)[i] == fb[i]
  {
    var rows := SolidRows(pixel, width, height);
    SolidPasteable(fb, pitch, width, height, pixel, height);
    forall k | 0 <= k < height ensures !(Start(0, pitch, k) <= i < Start(0, pitch, k) + |rows[k]|) {
      SolidRowMisses(pitch, width * |pixel|, k, y, c, i);
    }
    PasteOutside(fb, pitch, 0, rows, i);
  }

  lemma ScaledRowAt(src: Image, l: ScaledLayout, y: nat, x: nat, b: nat, c: nat)
    requires src.Valid() && y < l.height && x < l.width && b < src.bpp && c == x * src.bpp + b
    ensures c < |ScaledRow(src, l, y, l.width)|
    ensures ScaledRow(src, l, y, l.width)[c] == src.Pixel(Sampled(y, src.height, l.height), Sampled(x, src.width, l.width))[b]
  {
    FlattenAt(ScaledPixels(src, l, y, l.width), src.bpp, x, b);
  }

  lemma ScaledRowsUniform(src: Image, l: ScaledLayout, length: nat)
    requires src.Valid() && length == l.width * src.bpp
    ensures Uniform(ScaledRows(src, l, l.height), length)
  {}

  /** Byte `c` of row `y` of the layout. */
  lemma ScaledByte(src: Image, dst: seq<u8>, pitch: u64, dw: u32, dh: u32, l: ScaledLayout, black: seq<u8>,
                   y: nat, c: nat)
    requires src.Valid() && |black| == src.bpp && ValidRaster(|dst|, pitch, dw, dh, src.bpp) && Inside(l, dw, dh)
    requires y < l.height && c < |ScaledRow(src, l, y, l.width)|
    ensures var i := Start(Origin(l, pitch, src.bpp), pitch, y) + c;
      i < |dst| && Scaled(src, dst, pitch, dw, dh, l, black)[i] == ScaledRow(src, l, y, l.width)[c]
  {
    var at, rows, length := Origin(l, pitch, src.bpp), ScaledRows(src, l, l.height), |ScaledRow(src, l, y, l.width)|;
    ScaledPasteable(|dst|, pitch, dw, dh, src, l, l.height);
    ScaledRowInside(|dst|, pitch, dw, dh, src.bpp, l, y);
    ScaledRowsUniform(src, l, length);
    PasteInside(Filled(dst, pitch, dw, dh, black), pitch, at, rows, length, y, c);
  }

  lemma ScaledAt(src: Image, dst: seq<u8>, pitch: u64, dw: u32, dh: u32, l: ScaledLayout, black: seq<u8>,
                 y: nat, x: nat, b: nat, c: nat)
    requires src.Valid() && |black| == src.bpp && ValidRaster(|dst|, pitch, dw, dh, src.bpp) && Inside(l, dw, dh)
    requires y < l.height && x < l.width && b < src.bpp && c == x * src.bpp + b
    ensures var i := Start(Origin(l, pitch, src.bpp), pitch, y) + c;
      && i < |dst|
      && Scaled(src, dst, pitch, dw, dh, l, black)[i]
           == src.Pixel(Sampled(y, src.height, l.height), Sampled(x, src.width, l.width))[b]
  {
    ScaledRowAt(src, l, y, x, b, c);
    ScaledByte(src, dst, pitch, dw, dh, l, black, y, c);
  }

  /** Where byte `b` of pixel `x` of row `y` of the layout lies in the destination. */
  lemma ScaledIndex(l: ScaledLayout, pitch: u64, bpp: nat, y: nat, x: nat, b: nat, i: nat)
    requires x < l.width && i == (l.y + y) * pitch + (l.x + x) * bpp + b
    ensures 0 <= x * bpp && i == Start(Origin(l, pitch, bpp), pitch, y) + (x * bpp + b)
  {
    ScaledPixelAt(l, pitch, bpp, y, x, Start(Origin(l, pitch, bpp), pitch, y));
    Monotone(0, x, bpp);
  }

  /** The same with the sampled coordinates as they are computed. */
  lemma ScaledShows(src: Image, dst: seq<u8>, pitch: u64, dw: u32, dh: u32, l: ScaledLayout, black: seq<u8>,
                    y: nat, x: nat, b: nat, i: nat)
    requires src.Valid() && |black| == src.bpp && ValidRaster(|dst|, pitch, dw, dh, src.bpp) && Inside(l, dw, dh)
    requires y < l.height && x < l.width && b < src.bpp && i == (l.y + y) * pitch + (l.x + x) * src.bpp + b
    ensures i < |dst|
    ensures Scaled(src, dst, pitch, dw, dh, l, black)[i]
         == src.Pixel(Sampled(y, src.height, l.height), Sampled(x, src.width, l.width))[b]
  {
    ScaledIndex(l, pitch, src.bpp, y, x, b, i);
    ScaledAt(src, dst, pitch, dw, dh, l, black, y, x, b, x * src.bpp + b);
  }

  /** Every pixel of the layout shows the source pixel at the rounded-down scaled coordinates. */
  lemma ScaledInside(src: Image, dst: seq<u8>, pitch: u64, dw: u32, dh: u32, l: ScaledLayout, black: seq<u8>,
                     y: nat, x: nat, b: nat, i: nat, sourceY: nat, sourceX: nat)
    requires src.Valid() && |black| == src.bpp && ValidRaster(|dst|, pitch, dw, dh, src.bpp) && Inside(l, dw, dh)
    requires y < l.height && x < l.width && b < src.bpp && i == (l.y + y) * pitch + (l.x + x) * src.bpp + b
    requires sourceY == y * src.height / l.height && sourceX == x * src.width / l.width
    ensures i < |dst| && sourceY < src.height && sourceX < src.width
    ensures Scaled(src, dst, pitch, dw, dh, l, black)[i] == src.Pixel(sourceY, sourceX)[b]
    ensures var from := sourceY * src.pitch + sourceX * src.bpp + b;
      0 <= from < |src.bytes| && Scaled(src, dst, pitch, dw, dh, l, black)[i] == src.bytes[from]
  {
    SampledIsQuotient(y, src.height, l.height);
    SampledIsQuotient(x, src.width, l.width);
    src.PixelByte(sourceY, sourceX, b);
    ScaledShows(src, dst, pitch, dw, dh, l, black, y, x, b, i);
  }

  /** Column byte `c` of row `y` lies outside the layout. */
  predicate Beside(l: ScaledLayout, bpp: nat, y: nat, c: nat) {
    !(l.y <= y < l.y + l.height && l.x * bpp <= c < (l.x + l.width) * bpp)
  }

  lemma ScaledRowMisses(n: nat, pitch: u64, dw: nat, dh: nat, bpp: nat, l: ScaledLayout, k: nat, y: nat, c: nat, i: nat)
    requires ValidRaster(n, pitch, dw, dh, bpp) && Inside(l, dw, dh) && k < l.height
    requires i == y * pitch + c && (y >= dh || (c < pitch && Beside(l, bpp, y, c)))
    ensures var start := Start(Origin(l, pitch, bpp), pitch, k); !(start <= i < start + l.width * bpp)
  {
    ScaledRowInside(n, pitch, dw, dh, bpp, l, k);
    if l.y + k < y { Below(l.y + k, y, pitch); }
    if y < l.y + k { Below(y, l.y + k, pitch); }
  }

  /** Outside the layout a scaled image is the background. */
  lemma ScaledBeside(src: Image, dst: seq<u8>, pitch: u64, dw: u32, dh: u32, l: ScaledLayout, black: seq<u8>,
                     y: nat, c: nat, i: nat)
    requires src.Valid() && |black| == src.bpp && ValidRaster(|dst|, pitch, dw, dh, src.bpp) && Inside(l, dw, dh)
    requires i == y * pitch + c && i < |dst| && (y >= dh || (c < pitch && Beside(l, src.bpp, y, c)))
    ensures Scaled(src, dst, pitch, dw, dh, l, black)[i] == Filled(dst, pitch, dw, dh, black)[i]
  {
    var at, rows := Origin(l, pitch, src.bpp), ScaledRows(src, l, l.height);
    ScaledPasteable(|dst|, pitch, dw, dh, src, l, l.height);
    forall k | 0 <= k < l.height ensures !(Start(at, pitch, k) <= i < Start(at, pitch, k) + |rows[k]|) {
      ScaledRowMisses(|dst|, pitch, dw, dh, src.bpp, l, k, y, c, i);
    }
    PasteOutside(Filled(dst, pitch, dw, dh, black), pitch, at, rows, i);
  }

  lemma PixelBeside(l: ScaledLayout, bpp: nat, y: nat, x: nat, b: nat)
    requires b < bpp && !(l.y <= y < l.y + l.height && l.x <= x < l.x + l.width)
    ensures 0 <= x * bpp && Beside(l, bpp, y, x * bpp + b)
  {
    Monotone(0, x, bpp);
    if x < l.x { Below(x, l.x, bpp); }
    if l.x + l.width <= x { Monotone(l.x + l.width, x, bpp); }
  }

  /** Visible pixels outside the layout are background. */
  lemma ScaledBorder(src: Image, dst: seq<u8>, pitch: u64, dw: u32, dh: u32, l: ScaledLayout, black: seq<u8>,
                     y: nat, x: nat, b: nat, i: nat)
    requires src.Valid() && |black| == src.bpp && ValidRaster(|dst|, pitch, dw, dh, src.bpp) && Inside(l, dw, dh)
    requires y < dh && x < dw && b < src.bpp && !(l.y <= y < l.y + l.height && l.x <= x < l.x + l.width)
    requires i == y * pitch + x * src.bpp + b
    ensures i < |dst| && Scaled(src, dst, pitch, dw, dh, l, black)[i] == black[b]
  {
    FilledPixel(dst, pitch, dw, dh, black, y, x, b, i);
    Below(x, dw, src.bpp);
    PixelBeside(l, src.bpp, y, x, b);
    ScaledBeside(src, dst, pitch, dw, dh, l, black, y, x * src.bpp + b, i);
  }

  /** With the background that scaling uses, every byte of them is zero. */
  lemma ScaledBorderIsZero(src: Image, dst: seq<u8>, pitch: u64, dw: u32, dh: u32, l: ScaledLayout, format: TransferFormat,
                           y: nat, x: nat, b: nat, i: nat)
    requires src.Valid() && src.bpp == format.BytesPerPixel()
    requires ValidRaster(|dst|, pitch, dw, dh, src.bpp) && Inside(l, dw, dh)
    requires y < dh && x < dw && b < src.bpp && !(l.y <= y < l.y + l.height && l.x <= x < l.x + l.width)
    requires i == y * pitch + x * src.bpp + b
    ensures i < |dst| && Scaled(src, dst, pitch, dw, dh, l, PixelBytes(format, COLOR_BLACK))[i] == 0
  {
    ScaledBorder(src, dst, pitch, dw, dh, l, PixelBytes(format, COLOR_BLACK), y, x, b, i);
  }

  /** Row padding and the bytes behind the last row are never written. */
  lemma ScaledElsewhere(src: Image, dst: seq<u8>, pitch: u64, dw: u32, dh: u32, l: ScaledLayout, black: seq<u8>,
                        y: nat, c: nat, i: nat)
    requires src.Valid() && |black| == src.bpp && ValidRaster(|dst|, pitch, dw, dh, src.bpp) && Inside(l, dw, dh)
    requires i == y * pitch + c && i < |dst| && (y >= dh || dw * src.bpp <= c < pitch)
    ensures Scaled(src, dst, pitch, dw, dh, l, black)[i] == dst[i]
  {
    Monotone(l.x + l.width, dw, src.bpp);
    FilledElsewhere(dst, pitch, dw, dh, black, y, c, i);
    ScaledBeside(src, dst, pitch, dw, dh, l, black, y, c, i);
  }

  lemma SampledSame(d: nat, n: nat)
    requires d < n
    ensures d * n / n == d
  {
    QuotientAtLeast(d * n, n, d);
    QuotientAtMost(d * n, n, d);
  }

  /** An image shown in its own size is copied exactly. */
  lemma ScaledSameSize(src: Image, dst: seq<u8>, pitch: u64, black: seq<u8>, y: nat, x: nat, b: nat, i: nat)
    requires src.Valid() && |black| == src.bpp && ValidRaster(|dst|, pitch, src.width, src.height, src.bpp)
    requires y < src.height && x < src.width && b < src.bpp && i == y * pitch + x * src.bpp + b
    ensures ComputeScaledLayout(src.width, src.height, src.width, src.height).Some?
    ensures var l := ComputeScaledLayout(src.width, src.height, src.width, src.height).value;
      && Inside(l, src.width, src.height) && i < |dst|
      && Scaled(src, dst, pitch, src.width, src.height, l, black)[i] == src.Pixel(y, x)[b]
  {
    SameSizeLayout(src.width, src.height);
    var l := ScaledLayout(0, 0, src.width, src.height);
    SampledSame(y, src.height);
    SampledSame(x, src.width);
    ScaledInside(src, dst, pitch, src.width, src.height, l, black, y, x, b, i, y, x);
  }

  /** Enlarging skips no source coordinate. */
  lemma EverySampled(s: nat, source: nat, scaled: nat) returns (d: nat)
    requires s < source <= scaled
    ensures d < scaled && d * source / scaled == s
  {
    Monotone(0, s, scaled);
    var n: nat := s * scaled + source - 1;
    d := n / source;
    Quotient(n, source);
    QuotientAtLeast(d * source, scaled, s);
    QuotientAtMost(d * source, scaled, s);
    Below(s, source, scaled);
    Commutes(source, scaled);
    if d >= scaled { Monotone(scaled, d, source); }
  }

  /** A layout at least as large as the source shows every pixel of the source. */
  lemma NothingDropped(src: Image, dst: seq<u8>, pitch: u64, dw: u32, dh: u32, l: ScaledLayout, black: seq<u8>,
                       sourceY: nat, sourceX: nat)
    returns (y: nat, x: nat, i: nat)
    requires src.Valid() && |black| == src.bpp && ValidRaster(|dst|, pitch, dw, dh, src.bpp) && Inside(l, dw, dh)
    requires src.width <= l.width && src.height <= l.height && sourceY < src.height && sourceX < src.width
    ensures y < l.height && x < l.width && i == (l.y + y) * pitch + (l.x + x) * src.bpp && i + src.bpp <= |dst|
    ensures Scaled(src, dst, pitch, dw, dh, l, black)[i..i + src.bpp] == src.Pixel(sourceY, sourceX)
  {
    y := EverySampled(sourceY, src.height, l.height);
    x := EverySampled(sourceX, src.width, l.width);
    PixelInside(|dst|, pitch, dw, dh, src.bpp, l.y + y, l.x + x);
    i := (l.y + y) * pitch + (l.x + x) * src.bpp;
    var shown := Scaled(src, dst, pitch, dw, dh, l, black);
    forall b | 0 <= b < src.bpp ensures shown[i + b] == src.Pixel(sourceY, sourceX)[b] {
      ScaledInside(src, dst, pitch, dw, dh, l, black, y, x, b, i + b, sourceY, sourceX);
    }
  }
}
