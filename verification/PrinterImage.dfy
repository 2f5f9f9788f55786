/** Rasterising an image for the printer (pkg/printer/image.go). */
module PrinterImage {
  import opened Prelude
  import opened Dither
  import opened Grid
  import EscPos

  // -------------------------------------------------------------- configuration

  const DEFAULT_THRESHOLD := 120.0
  const DEFAULT_SCALE := 0.96
  const DEFAULT_MAX_WIDTH := 512

  function ConfiguredThreshold(v: real): (t: real)
    ensures 0.0 < t <= WHITE
    ensures t == if 0.0 < v <= 255.0 then v else 120.0
  {
    if v < 0.0 || v > WHITE then DEFAULT_THRESHOLD
    else if v == 0.0 then DEFAULT_THRESHOLD
    else v
  }

  function ConfiguredScale(v: real): (s: real)
    ensures s > 0.0
    ensures s == if v > 0.0 then v else 0.96
  {
    if v <= 0.0 then DEFAULT_SCALE else v
  }

  /** Lift dark tones towards white. */
  function Lifted(grey: real, scale: real): real {
    WHITE - (WHITE - grey) * scale
  }

  lemma {:induction false} ProductWithin(a: real, k: real)
    requires 0.0 <= a && 0.0 <= k <= 1.0
    ensures 0.0 <= a * k <= a
  {
  }

  // ------------------------------------------------------------------- sampling

  type Channel = c: nat | c <= 65535

  datatype Rgba = Rgba(r: Channel, g: Channel, b: Channel, a: Channel)

  /** image.Image: bounds and a colour at every point. */
  datatype Picture = Picture(minX: int, minY: int, width: int, height: int, at: (int, int) -> Rgba)

  /** One channel over white paper. */
  function OverWhite(c: Channel, a: Channel): real {
    var alpha := a as real / 65535.0;
    (1.0 - alpha) * 255.0 + alpha * (c as real / 257.0)
  }

  function GreyOf(p: Rgba): real {
    0.299 * OverWhite(p.r, p.a) + 0.587 * OverWhite(p.g, p.a) + 0.114 * OverWhite(p.b, p.a)
  }

  lemma {:induction false} GreyOfIsGrey(p: Rgba)
    ensures 0.0 <= GreyOf(p) <= WHITE
  {
    ChannelIsGrey(p.r, p.a);
    ChannelIsGrey(p.g, p.a);
    ChannelIsGrey(p.b, p.a);
  }

  lemma {:induction false} ChannelIsGrey(c: Channel, a: Channel)
    ensures 0.0 <= OverWhite(c, a) <= WHITE
  {
    var alpha := a as real / 65535.0;
    var v := c as real / 257.0;
    ProductWithin(v, alpha);
    ProductWithin(WHITE - v, alpha);
  }

  /**
   * White paper shows through as far as the pixel is transparent, and what is
   * left is the luma of its 8-bit channels.
   */
  lemma {:induction false} GreyBlends(p: Rgba)
    ensures GreyOf(p.(a := 0)) == 255.0
    ensures 257000.0 * GreyOf(p.(a := 65535)) == 299.0 * p.r as real + 587.0 * p.g as real + 114.0 * p.b as real
    ensures 65535.0 * (255.0 - GreyOf(p)) == p.a as real * (255.0 - GreyOf(p.(a := 65535)))
  {
    ChannelBlends(p.r, p.a);
    ChannelBlends(p.g, p.a);
    ChannelBlends(p.b, p.a);
  }

  lemma {:induction false} ChannelBlends(c: Channel, a: Channel)
    ensures OverWhite(c, 0) == 255.0
    ensures 257.0 * OverWhite(c, 65535) == c as real
    ensures 65535.0 * (255.0 - OverWhite(c, a)) == a as real * (255.0 - OverWhite(c, 65535))
  {
  }

  /**
   * The channels come multiplied by alpha already (color.RGBA), so white at a
   * partial alpha is weakened twice: it stays white exactly when it is opaque or
   * fully transparent.
   */
  lemma {:induction false} WhiteStaysWhiteIff(a: Channel)
    ensures GreyOf(Rgba(a, a, a, a)) == WHITE <==> a == 0 || a == 65535
  {
    var p, q := Rgba(a, a, a, a), Rgba(a, a, a, 65535);
    assert p.(a := 65535) == q && (a == 0 ==> p.(a := 0) == p);
    GreyBlends(p);
    assert 257.0 * GreyOf(q) == a as real;
    if 0 < a < 65535 { Weakened(a as real, 255.0 - GreyOf(q), 255.0 - GreyOf(p)); }
  }

  lemma {:induction false} Weakened(x: real, y: real, z: real)
    requires x > 0.0 && y > 0.0 && 65535.0 * z == x * y
    ensures z > 0.0
  {
    assert x * y > 0.0;
  }

  function DestWidth(srcW: nat, maxWidth: int): nat {
    var limit := if maxWidth <= 0 then DEFAULT_MAX_WIDTH else maxWidth;
    if srcW > limit then limit else srcW
  }

  /** math.Round(dstW * srcH / srcW), at least one. */
  function DestHeight(srcW: nat, srcH: nat, dstW: nat): nat
    requires srcW > 0
  {
    var rounded := (2 * dstW * srcH + srcW) / (2 * srcW);
    if rounded < 1 then 1 else rounded
  }

  /** The source pixel shown at (x, y) of a w by h copy. */
  function Sampled(pic: Picture, w: nat, h: nat, x: nat, y: nat): Rgba
    requires x < w && y < h
  {
    pic.at(pic.minX + x * pic.width / w, pic.minY + y * pic.height / h)
  }

  lemma {:induction false} SampleInBounds(n: nat, size: nat, k: nat)
    requires k < n && size > 0
    ensures 0 <= k * size / n < size
  {
    var q := k * size / n;
    Monotone(k + 1, n, size);
    Monotone(size, q, n);
  }

  /** The pixel shown is the one whose share of the copy begins at or before (x, y), and the next one's after it. */
  lemma {:induction false} SampledIs(pic: Picture, w: nat, h: nat, x: nat, y: nat, sx: nat, sy: nat)
    requires pic.width > 0 && pic.height > 0 && x < w && y < h
    requires sx * w <= x * pic.width < sx * w + w && sy * h <= y * pic.height < sy * h + h
    ensures sx < pic.width && sy < pic.height
    ensures Sampled(pic, w, h, x, y) == pic.at(pic.minX + sx, pic.minY + sy)
  {
    QuotientIs(x * pic.width, w, sx);
    QuotientIs(y * pic.height, h, sy);
    SampleInBounds(w, pic.width, x);
    SampleInBounds(h, pic.height, y);
  }

  lemma {:induction false} QuotientIs(n: nat, d: nat, q: nat)
    requires d > 0 && q * d <= n < q * d + d
    ensures n / d == q
  {
    var r := n / d;
    assert n == d * r + n % d;
    if r < q { Monotone(r + 1, q, d); }
    if r > q { Monotone(q + 1, r, d); }
  }

  lemma {:induction false} Monotone(a: nat, b: nat, k: nat)
    ensures a <= b ==> a * k <= b * k
  {
  }

  function GreyImage(pic: Picture, w: nat, h: nat, scale: real, y: nat, x: nat): (r: seq<real>)
    requires x <= w && (y < h || (y == h && x == 0))
    ensures |r| == Above(w, y) + x
    decreases y, x
  {
    if x > 0 then GreyImage(pic, w, h, scale, y, x - 1) + [Lifted(GreyOf(Sampled(pic, w, h, x - 1, y)), scale)]
    else if y > 0 then GreyImage(pic, w, h, scale, y - 1, w)
    else []
  }

  /** Each cell of the grey image is its sampled pixel's grey, its distance from white scaled. */
  lemma {:induction false} GreyImageAt(pic: Picture, w: nat, h: nat, scale: real, y: nat, x: nat, p: nat, q: nat)
    requires x <= w && (y < h || (y == h && x == 0)) && p < w && q < h && Above(w, q) + p < Above(w, y) + x
    ensures 255.0 - GreyImage(pic, w, h, scale, y, x)[Above(w, q) + p] == (255.0 - GreyOf(Sampled(pic, w, h, p, q))) * scale
    decreases y, x
  {
    if x > 0 {
      if p == x - 1 && q == y {
      } else {
        SameCell(w, p, q, x - 1, y);
        GreyImageAt(pic, w, h, scale, y, x - 1, p, q);
      }
    } else {
      GreyImageAt(pic, w, h, scale, y - 1, w, p, q);
    }
  }

  lemma {:induction false} LiftedIsGrey(g: real, scale: real)
    requires 0.0 <= g <= WHITE && 0.0 < scale <= 1.0
    ensures 0.0 <= Lifted(g, scale) <= WHITE
  {
    ProductWithin(WHITE - g, scale);
  }

  lemma {:induction false} GreyPush(grey: seq<real>, g: real)
    requires Grey(grey) && 0.0 <= g <= WHITE
    ensures Grey(grey + [g])
  {
  }

  lemma {:induction false} GreyImageIsGrey(pic: Picture, w: nat, h: nat, scale: real, y: nat, x: nat)
    requires x <= w && (y < h || (y == h && x == 0)) && 0.0 < scale <= 1.0
    ensures Grey(GreyImage(pic, w, h, scale, y, x))
    decreases y, x
  {
    if x > 0 {
      var g := GreyOf(Sampled(pic, w, h, x - 1, y));
      GreyImageIsGrey(pic, w, h, scale, y, x - 1);
      GreyOfIsGrey(Sampled(pic, w, h, x - 1, y));
      LiftedIsGrey(g, scale);
      GreyPush(GreyImage(pic, w, h, scale, y, x - 1), Lifted(g, scale));
    } else if y > 0 {
      GreyImageIsGrey(pic, w, h, scale, y - 1, w);
    }
  }

  // ------------------------------------------------------------------ rasterise

  datatype RasterResult = NilImage | InvalidSize | Rastered(raster: Raster)

  function Rasterized(pic: Option<Picture>, maxWidth: int, threshold: real, scale: real): RasterResult {
    if pic.None? then NilImage
    else if pic.value.width <= 0 || pic.value.height <= 0 then InvalidSize
    else
      var w := DestWidth(pic.value.width, maxWidth);
      var h := DestHeight(pic.value.width, pic.value.height, w);
      var gray := GreyImage(pic.value, w, h, ConfiguredScale(scale), h, 0);
      Rastered(Raster(w, h, Dots(Values(gray, w, h, ConfiguredThreshold(threshold)), ConfiguredThreshold(threshold))))
  }

  /** The copy keeps the aspect ratio to within half a dot row, halves rounded up, unless that leaves no row. */
  lemma {:induction false} AspectIsKept(srcW: nat, srcH: nat, dstW: nat)
    requires srcW > 0
    ensures var h := DestHeight(srcW, srcH, dstW);
      h >= 1 && 2 * dstW * srcH - srcW < 2 * srcW * h && (h == 1 || 2 * srcW * h <= 2 * dstW * srcH + srcW)
  {
    var n, d := 2 * dstW * srcH + srcW, 2 * srcW;
    assert n == d * (n / d) + n % d;
  }

  /**
   * Every image with a positive size is rasterised within the width limit, and
   * with a darkness scale of at most one its dots carry the tone of the
   * sampled grey image up to what the border can lose.
   */
  lemma {:induction false} RasterKeepsTone(pic: Picture, maxWidth: int, threshold: real, scale: real)
    requires pic.width > 0 && pic.height > 0
    ensures var r := Rasterized(Some(pic), maxWidth, threshold, scale);
      && r.Rastered?
      && var w, h := r.raster.width, r.raster.height;
         && 0 < w <= pic.width && w <= (if maxWidth <= 0 then 512 else maxWidth)
         && (w == pic.width || w == if maxWidth <= 0 then 512 else maxWidth)
         && h == DestHeight(pic.width, pic.height, w) && h > 0
         && |r.raster.black| == w * h
         && (ConfiguredScale(scale) <= 1.0 ==>
              Loss(SumFrom(GreyImage(pic, w, h, ConfiguredScale(scale), h, 0), 0) - Tone(r.raster.black),
                   ConfiguredThreshold(threshold), 11 * h + 9 * w))
  {
    var r := Rasterized(Some(pic), maxWidth, threshold, scale).raster;
    var t, k := ConfiguredThreshold(threshold), ConfiguredScale(scale);
    AboveIs(r.width, r.height);
    if k <= 1.0 {
      var gray := GreyImage(pic, r.width, r.height, k, r.height, 0);
      GreyImageIsGrey(pic, r.width, r.height, k, r.height, 0);
      ToneIsKept(gray, r.width, r.height, t);
    }
  }

  method DiffuseError(buf: array<real>, width: nat, height: nat, x: int, y: int, delta: real)
    requires buf.Length == Above(width, height)
    modifies buf
    ensures buf[..] == Spread(old(buf[..]), width, height, x, y, delta)
  {
    if x < 0 || y < 0 || x >= width || y >= height { return; }
    AboveGrows(width, y, height);
    AboveIs(width, y);
    buf[y * width + x] := buf[y * width + x] + delta;
  }

  method PushError(work: array<real>, width: nat, height: nat, x: nat, y: nat, err: real)
    requires work.Length == Above(width, height)
    modifies work
    ensures work[..] == Push(old(work[..]), width, height, x, y, err)
  {
    DiffuseError(work, width, height, x + 1, y, err * 7.0 / 16.0);
    DiffuseError(work, width, height, x - 1, y + 1, err * 3.0 / 16.0);
    DiffuseError(work, width, height, x, y + 1, err * 5.0 / 16.0);
    DiffuseError(work, width, height, x + 1, y + 1, err * 1.0 / 16.0);
  }

  method VisitCell(work: array<real>, black: array<bool>, width: nat, height: nat, threshold: real, x: nat, y: nat)
    requires work.Length == black.Length == Above(width, height) && x < width && y < height
    modifies work, black
    ensures Above(width, y) + x < black.Length
    ensures work[..] == Push(old(work[..]), width, height, x, y, Residue(old(work[Above(width, y) + x]), threshold))
    ensures black[..] == old(black[..])[Above(width, y) + x := old(work[Above(width, y) + x]) < threshold]
  {
    AboveGrows(width, y, height);
    AboveIs(width, y);
    var idx := y * width + x;
    var was, newVal, isBlack := work[idx], WHITE, false;
    if was < threshold {
      newVal := 0.0;
      isBlack := true;
    }
    black[idx] := isBlack;
    PushError(work, width, height, x, y, was - newVal);
  }

  /** The arrays hold the state reached, dots so far. */
  ghost predicate Holds(work: seq<real>, black: seq<bool>, c: Canvas, threshold: real) {
    work == c.work && |c.values| <= |black| && black[..|c.values|] == Dots(c.values, threshold)
  }

  /** One pass of the inner dithering loop. */
  method DitherCell(work: array<real>, black: array<bool>, width: nat, height: nat, threshold: real, x: nat, y: nat, ghost c: Canvas)
    requires work.Length == black.Length == Above(width, height) && x < width && y < height
    requires |c.values| == Above(width, y) + x && Holds(work[..], black[..], c, threshold)
    modifies work, black
    ensures |c.work| == Above(width, height) && Holds(work[..], black[..], Visit(c, width, height, threshold, x, y), threshold)
  {
    AboveGrows(width, y, height);
    ghost var v := work[Above(width, y) + x];
    VisitCell(work, black, width, height, threshold, x, y);
    assert Dots(c.values + [v], threshold) == Dots(c.values, threshold) + [v < threshold];
  }

  /** The inner dithering loop. */
  method DitherRow(work: array<real>, black: array<bool>, width: nat, height: nat, threshold: real, y: nat, ghost gray: seq<real>)
    requires work.Length == black.Length == |gray| == Above(width, height) && y < height
    requires Holds(work[..], black[..], Reached(gray, width, height, threshold, y, 0), threshold)
    modifies work, black
    ensures Holds(work[..], black[..], Reached(gray, width, height, threshold, y + 1, 0), threshold)
  {
    ghost var c := Reached(gray, width, height, threshold, y, 0);
    var x := 0;
    while x < width
      invariant x <= width && c == Reached(gray, width, height, threshold, y, x)
      invariant Holds(work[..], black[..], c, threshold)
    {
      DitherCell(work, black, width, height, threshold, x, y, c);
      c := Visit(c, width, height, threshold, x, y);
      x := x + 1;
    }
  }

  /** The dithering loops: work is diffused in place, black receives the dots. */
  method DitherInPlace(work: array<real>, black: array<bool>, width: nat, height: nat, threshold: real)
    requires work.Length == black.Length == Above(width, height)
    modifies work, black
    ensures work[..] == Reached(old(work[..]), width, height, threshold, height, 0).work
    ensures black[..] == Dots(Values(old(work[..]), width, height, threshold), threshold)
  {
    ghost var gray := work[..];
    var y := 0;
    while y < height
      invariant y <= height
      invariant Holds(work[..], black[..], Reached(gray, width, height, threshold, y, 0), threshold)
    {
      DitherRow(work, black, width, height, threshold, y, gray);
      y := y + 1;
    }
    assert black[..] == black[..Above(width, height)];
  }

  method SampleRow(pic: Picture, gray: array<real>, w: nat, h: nat, scale: real, y: nat)
    requires gray.Length == Above(w, h) && y < h && Above(w, y) <= gray.Length
    requires gray[..Above(w, y)] == GreyImage(pic, w, h, scale, y, 0)
    modifies gray
    ensures Above(w, y + 1) <= gray.Length && gray[..Above(w, y + 1)] == GreyImage(pic, w, h, scale, y + 1, 0)
  {
    AboveGrows(w, y, h);
    AboveIs(w, y);
    var srcY := pic.minY + y * pic.height / h;
    ghost var tones := GreyImage(pic, w, h, scale, y, 0);
    var x := 0;
    while x < w
      invariant x <= w && tones == GreyImage(pic, w, h, scale, y, x)
      invariant gray[..Above(w, y) + x] == tones
    {
      var srcX := pic.minX + x * pic.width / w;
      var tone := Lifted(GreyOf(pic.at(srcX, srcY)), scale);
      gray[y * w + x] := tone;
      tones := tones + [tone];
      x := x + 1;
    }
  }

  method SampleGrey(pic: Picture, w: nat, h: nat, scale: real) returns (gray: array<real>)
    ensures fresh(gray) && gray[..] == GreyImage(pic, w, h, scale, h, 0)
  {
    AboveIs(w, h);
    gray := new real[w * h];
    var y := 0;
    while y < h
      invariant y <= h && Above(w, y) <= gray.Length
      invariant gray[..Above(w, y)] == GreyImage(pic, w, h, scale, y, 0)
    {
      SampleRow(pic, gray, w, h, scale, y);
      y := y + 1;
    }
    assert gray[..] == gray[..Above(w, h)];
  }

  method RasterizeMono(img: Option<Picture>, maxWidth: int, threshold: real, scale: real) returns (r: RasterResult)
    ensures r == Rasterized(img, maxWidth, threshold, scale)
  {
    if img.None? { return NilImage; }
    var pic := img.value;
    if pic.width <= 0 || pic.height <= 0 { return InvalidSize; }
    var dstW := DestWidth(pic.width, maxWidth);
    var dstH := DestHeight(pic.width, pic.height, dstW);
    var work := SampleGrey(pic, dstW, dstH, ConfiguredScale(scale));
    var black := new bool[work.Length];
    DitherInPlace(work, black, dstW, dstH, ConfiguredThreshold(threshold));
    r := Rastered(Raster(dstW, dstH, black[..]));
  }

  datatype PrintResult = Failed | Wrote(bytes: seq<EscPos.Byte>)

  /** Everything sent for an image; nothing is sent on an error. */
  method ImageBitColumnWidth(img: Option<Picture>, maxWidth: int, threshold: real, scale: real) returns (r: PrintResult)
    ensures r.Failed? <==> img.None? || img.value.width <= 0 || img.value.height <= 0
    ensures r.Wrote? ==>
      && Rasterized(img, maxWidth, threshold, scale).Rastered?
      && var raster := Rasterized(img, maxWidth, threshold, scale).raster;
         EscPos.Proper(raster) && r.bytes == [0x1B, 0x33, 16] + EscPos.Bands(raster, 0) + [0x1B, 0x32]
  {
    var result := RasterizeMono(img, maxWidth, threshold, scale);
    if !result.Rastered? { return Failed; }
    var raster := result.raster;
    RasterKeepsTone(img.value, maxWidth, threshold, scale);
    AboveIs(raster.width, raster.height);
    if raster.width == 0 || raster.height == 0 { return Wrote([]); }
    var b: seq<EscPos.Byte> := [EscPos.ESC, 0x33, 16];
    var y0 := 0;
    while y0 < raster.height
      invariant b + EscPos.Bands(raster, y0) == [EscPos.ESC, 0x33, 16] + EscPos.Bands(raster, 0)
    {
      var band := EscPos.PrintBand(raster, y0);
      assert b + (band + EscPos.Bands(raster, y0 + 24)) == b + band + EscPos.Bands(raster, y0 + 24);
      b := b + band;
      y0 := y0 + 24;
    }
    assert b + [] == b;
    r := Wrote(b + [EscPos.ESC, 0x32]);
  }
}
