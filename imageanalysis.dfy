/**
 * The boring-background classifier: sample the pixels of a border band of
 * the image, count the near-white and near-black ones, and call the image
 * boring when either kind makes up more than the threshold fraction.
 */
module ImageAnalysis {
  import opened Wrappers
  import opened FileSystem

  type Channel = c: int | 0 <= c < 256

  /** An RGB pixel, as `getpixel` returns it once the image is converted to RGB. */
  datatype Pixel = Pixel(r: Channel, g: Channel, b: Channel)

  /** A decoded image: `pixels[y][x]` is the pixel at column `x` of row `y`. */
  datatype Image = Image(width: nat, height: nat, pixels: seq<seq<Pixel>>)

  predicate WellFormed(img: Image) {
    && |img.pixels| == img.height
    && forall y :: 0 <= y < img.height ==> |img.pixels[y]| == img.width
  }

  /** What PIL hands back from a successful `Image.open`, `load` and `convert('RGB')`. */
  type RgbImage = img: Image | WellFormed(img) witness Image(0, 0, [])

  /**
   * PIL's decoding of a file's bytes: the image, or None where `Image.open`
   * or `load` raises.
   */
  type Decoder = Bytes -> Option<RgbImage>

  /** Opening a directory entry as an image; the skip-list store's CSV text is not an image. */
  function Decode(node: Node, decoder: Decoder): Option<RgbImage> {
    match node
    case File(data) => decoder(data)
    case Table(_) => None
    case Directory => None
  }

  /** `img.getpixel((x, y))`, for coordinates inside the image. */
  function GetPixel(img: RgbImage, x: nat, y: nat): Pixel
    requires x < img.width && y < img.height
  {
    img.pixels[y][x]
  }

  /** `min(10, width // 20, height // 20)`: 10 pixels, or 5% of the smaller side. */
  function BorderWidth(img: RgbImage): (bw: nat)
    ensures bw <= 10 && bw * 20 <= img.width && bw * 20 <= img.height
  {
    var m := if img.width / 20 < img.height / 20 then img.width / 20 else img.height / 20;
    if m < 10 then m else 10
  }

  /**
   * The band is as wide as those bounds allow: one pixel more would exceed
   * 10 or a twentieth of a side, so with them it is the minimum of the three.
   */
  lemma BorderWidthIsLargest(img: RgbImage)
    ensures var bw := BorderWidth(img);
            bw == 10 || img.width < (bw + 1) * 20 || img.height < (bw + 1) * 20
  {
  }

  /** Rows `lo .. hi - 1`, each across the full width, row after row. */
  function RowsBand(img: RgbImage, lo: nat, hi: nat): seq<Pixel>
    requires hi <= img.height
    decreases hi
  {
    if hi <= lo then []
    else RowsBand(img, lo, hi - 1) + img.pixels[hi - 1]
  }

  /** Column `x` from top to bottom. */
  function Column(img: RgbImage, x: nat): (col: seq<Pixel>)
    requires x < img.width
    ensures |col| == img.height
  {
    seq(img.height, y requires 0 <= y < img.height => GetPixel(img, x, y))
  }

  /** Columns `lo .. hi - 1`, each across the full height, column after column. */
  function ColsBand(img: RgbImage, lo: nat, hi: nat): seq<Pixel>
    requires hi <= img.width
    decreases hi
  {
    if hi <= lo then []
    else ColsBand(img, lo, hi - 1) + Column(img, hi - 1)
  }

  /** The sampled pixels, in sampling order: top, bottom, left and right bands. */
  function BorderPixels(img: RgbImage): seq<Pixel> {
    var bw := BorderWidth(img);
    RowsBand(img, 0, bw) + RowsBand(img, img.height - bw, img.height)
      + ColsBand(img, 0, bw) + ColsBand(img, img.width - bw, img.width)
  }

  /** Brightness `(r + g + b) / 3` above 240. */
  predicate IsWhite(p: Pixel) {
    p.r + p.g + p.b > 720
  }

  /** Brightness `(r + g + b) / 3` below 15. */
  predicate IsBlack(p: Pixel) {
    p.r + p.g + p.b < 45
  }

  function CountWhite(s: seq<Pixel>): nat
    decreases |s|
  {
    if s == [] then 0 else CountWhite(s[..|s| - 1]) + (if IsWhite(s[|s| - 1]) then 1 else 0)
  }

  function CountBlack(s: seq<Pixel>): nat
    decreases |s|
  {
    if s == [] then 0 else CountBlack(s[..|s| - 1]) + (if IsBlack(s[|s| - 1]) then 1 else 0)
  }

  type PosNat = n: nat | n > 0 witness 1

  /** A threshold fraction `num / den`. */
  datatype Ratio = Ratio(num: int, den: PosNat)

  /** `BORING_BACKGROUND_THRESHOLD`, 0.7. */
  const DEFAULT_THRESHOLD := Ratio(7, 10)

  /** `count / total > threshold`, multiplied out. */
  predicate Exceeds(count: nat, total: PosNat, t: Ratio) {
    count * t.den > t.num * total
  }

  /** The verdict of `is_boring_background` on the decoded image, or on a file that fails to decode. */
  function Boring(img: Option<RgbImage>, t: Ratio): bool {
    match img
    case None => false
    case Some(i) =>
      var px := BorderPixels(i);
      |px| > 0 && (Exceeds(CountWhite(px), |px|, t) || Exceeds(CountBlack(px), |px|, t))
  }

  /** Appends rows `lo .. hi - 1` pixel by pixel. */
  method SampleRows(img: RgbImage, lo: nat, hi: nat, samples: seq<Pixel>) returns (out: seq<Pixel>)
    requires lo <= hi <= img.height
    ensures out == samples + RowsBand(img, lo, hi)
  {
    out := samples;
    for py := lo to hi
      invariant out == samples + RowsBand(img, lo, py)
    {
      for px := 0 to img.width
        invariant out == samples + RowsBand(img, lo, py) + img.pixels[py][..px]
      {
        out := out + [GetPixel(img, px, py)];
        assert img.pixels[py][..px + 1] == img.pixels[py][..px] + [img.pixels[py][px]];
      }
      assert img.pixels[py][..img.width] == img.pixels[py];
    }
  }

  /** Appends columns `lo .. hi - 1` pixel by pixel. */
  method SampleCols(img: RgbImage, lo: nat, hi: nat, samples: seq<Pixel>) returns (out: seq<Pixel>)
    requires lo <= hi <= img.width
    ensures out == samples + ColsBand(img, lo, hi)
  {
    out := samples;
    for px := lo to hi
      invariant out == samples + ColsBand(img, lo, px)
    {
      for py := 0 to img.height
        invariant out == samples + ColsBand(img, lo, px) + Column(img, px)[..py]
      {
        out := out + [GetPixel(img, px, py)];
        assert Column(img, px)[..py + 1] == Column(img, px)[..py] + [GetPixel(img, px, py)];
      }
      assert Column(img, px)[..img.height] == Column(img, px);
    }
  }

  /**
   * `is_boring_background`. `img` is None when the file cannot be opened or
   * decoded, which the source's outer `except` turns into False.
   */
  method IsBoringBackground(img: Option<RgbImage>, threshold: Ratio) returns (boring: bool)
    ensures boring == Boring(img, threshold)
  {
    if img.None? {
      return false;
    }
    var border := SampleBorder(img.value);
    if border == [] {
      return false;
    }
    var white, black := CountExtremes(border);
    var total := |border|;
    boring := Exceeds(white, total, threshold) || Exceeds(black, total, threshold);
  }

  /** The four bands, sampled in order: top, bottom, left, right. */
  method SampleBorder(image: RgbImage) returns (border: seq<Pixel>)
    ensures border == BorderPixels(image)
  {
    var bw := BorderWidth(image);
    border := SampleRows(image, 0, bw, []);
    border := SampleRows(image, image.height - bw, image.height, border);
    border := SampleCols(image, 0, bw, border);
    border := SampleCols(image, image.width - bw, image.width, border);
  }

  /** One pass over the samples, counting near-white and near-black pixels. */
  method CountExtremes(border: seq<Pixel>) returns (white: nat, black: nat)
    ensures white == CountWhite(border) && black == CountBlack(border)
  {
    white, black := 0, 0;
    for i := 0 to |border|
      invariant white == CountWhite(border[..i]) && black == CountBlack(border[..i])
    {
      assert border[..i + 1][..i] == border[..i];
      var p := border[i];
      if p.r + p.g + p.b > 720 {
        white := white + 1;
      } else if p.r + p.g + p.b < 45 {
        black := black + 1;
      }
    }
    assert border[..|border|] == border;
  }

  lemma {:induction false} RowsBandLength(img: RgbImage, lo: nat, hi: nat)
    requires lo <= hi <= img.height
    ensures |RowsBand(img, lo, hi)| == (hi - lo) * img.width
    decreases hi
  {
    if lo < hi {
      RowsBandLength(img, lo, hi - 1);
    }
  }

  lemma {:induction false} ColsBandLength(img: RgbImage, lo: nat, hi: nat)
    requires lo <= hi <= img.width
    ensures |ColsBand(img, lo, hi)| == (hi - lo) * img.height
    decreases hi
  {
    if lo < hi {
      ColsBandLength(img, lo, hi - 1);
    }
  }

  /** 2 · bw · (width + height) samples; the corners are sampled twice. */
  lemma BorderPixelCount(img: RgbImage)
    ensures |BorderPixels(img)| == 2 * BorderWidth(img) * (img.width + img.height)
  {
    var bw := BorderWidth(img);
    RowsBandLength(img, 0, bw);
    RowsBandLength(img, img.height - bw, img.height);
    ColsBandLength(img, 0, bw);
    ColsBandLength(img, img.width - bw, img.width);
    FourBands(bw, img.width, img.height);
  }

  lemma FourBands(bw: nat, w: nat, h: nat)
    ensures bw * w + bw * w + bw * h + bw * h == 2 * bw * (w + h)
  {
  }

  /** An image less than 20 pixels wide or high has no border to sample and is never boring. */
  lemma SmallImageNotBoring(img: RgbImage, t: Ratio)
    requires img.width < 20 || img.height < 20
    ensures !Boring(Some(img), t)
  {
    BorderPixelCount(img);
  }

  lemma {:induction false} CountsBounded(s: seq<Pixel>)
    ensures CountWhite(s) + CountBlack(s) <= |s|
    decreases |s|
  {
    if s != [] {
      CountsBounded(s[..|s| - 1]);
    }
  }

  /**
   * No pixel is both white and black, so with a threshold of one half or
   * more an image is never boring on both counts at once.
   */
  lemma NotBothBoring(img: RgbImage, t: Ratio)
    requires 2 * t.num >= t.den
    ensures var px := BorderPixels(img);
            |px| > 0 ==> !(Exceeds(CountWhite(px), |px|, t) && Exceeds(CountBlack(px), |px|, t))
  {
    var px := BorderPixels(img);
    CountsBounded(px);
    if |px| > 0 {
      NotBothExceed(CountWhite(px), CountBlack(px), |px|, t);
    }
  }

  lemma NotBothExceed(w: nat, b: nat, n: PosNat, t: Ratio)
    requires w + b <= n && 2 * t.num >= t.den
    ensures !(Exceeds(w, n, t) && Exceeds(b, n, t))
  {
    if Exceeds(w, n, t) && Exceeds(b, n, t) {
      var d := t.den;
      assert w * d + b * d > 2 * (t.num * n);
      MulMonotone(w + b, n, d);
      assert (w + b) * d == w * d + b * d;
      MulMonotone(d, 2 * t.num, n);
      assert false;
    }
  }

  lemma MulMonotone(a: int, b: int, c: nat)
    requires a <= b
    ensures a * c <= b * c
  {
  }

  lemma {:induction false} CountsAppend(a: seq<Pixel>, b: seq<Pixel>)
    ensures CountWhite(a + b) == CountWhite(a) + CountWhite(b)
    ensures CountBlack(a + b) == CountBlack(a) + CountBlack(b)
    decreases |b|
  {
    if b == [] {
      assert a + b == a;
    } else {
      var n := |b| - 1;
      CountsAppend(a, b[..n]);
      assert (a + b)[..|a + b| - 1] == a + b[..n];
    }
  }

  lemma {:induction false} CountsOfUniform(s: seq<Pixel>, p: Pixel)
    requires forall i :: 0 <= i < |s| ==> s[i] == p
    ensures CountWhite(s) == if IsWhite(p) then |s| else 0
    ensures CountBlack(s) == if IsBlack(p) then |s| else 0
    decreases |s|
  {
    if s != [] {
      CountsOfUniform(s[..|s| - 1], p);
    }
  }

  /** An image all of whose pixels are `p`. */
  predicate Solid(img: RgbImage, p: Pixel) {
    forall y, x :: 0 <= y < img.height && 0 <= x < img.width ==> img.pixels[y][x] == p
  }

  /** Every sampled pixel is a pixel of the image. */
  lemma {:induction false} RowsBandFrom(img: RgbImage, lo: nat, hi: nat, i: nat)
    requires hi <= img.height && i < |RowsBand(img, lo, hi)|
    ensures exists y, x :: lo <= y < hi && 0 <= x < img.width && RowsBand(img, lo, hi)[i] == img.pixels[y][x]
    decreases hi
  {
    var prev := RowsBand(img, lo, hi - 1);
    if i < |prev| {
      RowsBandFrom(img, lo, hi - 1, i);
    } else {
      var x := i - |prev|;
      assert RowsBand(img, lo, hi)[i] == img.pixels[hi - 1][x];
    }
  }

  lemma {:induction false} ColsBandFrom(img: RgbImage, lo: nat, hi: nat, i: nat)
    requires hi <= img.width && i < |ColsBand(img, lo, hi)|
    ensures exists y, x :: 0 <= y < img.height && lo <= x < hi && ColsBand(img, lo, hi)[i] == img.pixels[y][x]
    decreases hi
  {
    var prev := ColsBand(img, lo, hi - 1);
    if i < |prev| {
      ColsBandFrom(img, lo, hi - 1, i);
    } else {
      var y := i - |prev|;
      assert ColsBand(img, lo, hi)[i] == img.pixels[y][hi - 1];
    }
  }

  /**
   * With the default threshold, an image of one colour at least 20 pixels
   * on each side is boring exactly when that colour is near-white or
   * near-black.
   */
  lemma SolidImage(img: RgbImage, p: Pixel)
    requires Solid(img, p) && img.width >= 20 && img.height >= 20
    ensures Boring(Some(img), DEFAULT_THRESHOLD) <==> IsWhite(p) || IsBlack(p)
  {
    BorderSolid(img, p);
    BorderNotEmpty(img);
    var px := BorderPixels(img);
    UniformVerdict(CountWhite(px), CountBlack(px), |px|, p);
  }

  /** `s` counts as `p` does, once per pixel. */
  predicate CountsAs(s: seq<Pixel>, p: Pixel) {
    CountWhite(s) == (if IsWhite(p) then |s| else 0) && CountBlack(s) == (if IsBlack(p) then |s| else 0)
  }

  /** Every sample of a solid image has its colour. */
  lemma BorderSolid(img: RgbImage, p: Pixel)
    requires Solid(img, p)
    ensures CountsAs(BorderPixels(img), p)
  {
    var bw := BorderWidth(img);
    RowsBandSolid(img, 0, bw, p);
    RowsBandSolid(img, img.height - bw, img.height, p);
    ColsBandSolid(img, 0, bw, p);
    ColsBandSolid(img, img.width - bw, img.width, p);
    CountsAsFour(RowsBand(img, 0, bw), RowsBand(img, img.height - bw, img.height),
                 ColsBand(img, 0, bw), ColsBand(img, img.width - bw, img.width), p);
  }

  lemma CountsAsFour(a: seq<Pixel>, b: seq<Pixel>, c: seq<Pixel>, d: seq<Pixel>, p: Pixel)
    requires CountsAs(a, p) && CountsAs(b, p) && CountsAs(c, p) && CountsAs(d, p)
    ensures CountsAs(a + b + c + d, p)
  {
    CountsAppend(a, b);
    CountsAppend(a + b, c);
    CountsAppend(a + b + c, d);
  }

  /** An image at least 20 pixels on each side has a border to sample. */
  lemma BorderNotEmpty(img: RgbImage)
    requires img.width >= 20 && img.height >= 20
    ensures |BorderPixels(img)| > 0
  {
    BorderPixelCount(img);
    var bw := BorderWidth(img);
    assert bw >= 1;
    PositiveProduct(bw, img.width + img.height);
  }

  lemma PositiveProduct(a: nat, b: nat)
    requires a >= 1 && b >= 1
    ensures 2 * a * b > 0
  {
  }

  /** Counts all or nothing of one colour: boring exactly when that colour is white or black. */
  lemma UniformVerdict(white: nat, black: nat, n: PosNat, p: Pixel)
    requires white == (if IsWhite(p) then n else 0) && black == (if IsBlack(p) then n else 0)
    ensures Exceeds(white, n, DEFAULT_THRESHOLD) || Exceeds(black, n, DEFAULT_THRESHOLD) <==> IsWhite(p) || IsBlack(p)
  {
  }

  /** A band of a solid image counts as its colour does, once per pixel. */
  lemma RowsBandSolid(img: RgbImage, lo: nat, hi: nat, p: Pixel)
    requires Solid(img, p) && hi <= img.height
    ensures CountsAs(RowsBand(img, lo, hi), p)
  {
    var band := RowsBand(img, lo, hi);
    forall i | 0 <= i < |band| ensures band[i] == p {
      RowsBandFrom(img, lo, hi, i);
    }
    CountsOfUniform(band, p);
  }

  lemma ColsBandSolid(img: RgbImage, lo: nat, hi: nat, p: Pixel)
    requires Solid(img, p) && hi <= img.width
    ensures CountsAs(ColsBand(img, lo, hi), p)
  {
    var band := ColsBand(img, lo, hi);
    forall i | 0 <= i < |band| ensures band[i] == p {
      ColsBandFrom(img, lo, hi, i);
    }
    CountsOfUniform(band, p);
  }

  lemma {:induction false} NoneCounted(s: seq<Pixel>)
    ensures (forall i :: 0 <= i < |s| ==> !IsWhite(s[i])) ==> CountWhite(s) == 0
    ensures (forall i :: 0 <= i < |s| ==> !IsBlack(s[i])) ==> CountBlack(s) == 0
    decreases |s|
  {
    if s != [] {
      NoneCounted(s[..|s| - 1]);
    }
  }

  /** The image `w` × `h` filled with `p`. */
  function SolidImageOf(w: nat, h: nat, p: Pixel): (img: RgbImage)
    ensures img.width == w && img.height == h && Solid(img, p)
  {
    Image(w, h, seq(h, y requires 0 <= y < h => seq(w, x requires 0 <= x < w => p)))
  }

  /** Row `y` of the 1920 × 1080 test gradient: grey level `int(255 * y / 1080)`. */
  function GradientLevel(y: nat): Channel
    requires y < 1080
  {
    255 * y / 1080
  }

  /** The test suite's vertical black-to-white gradient, 1920 × 1080. */
  function Gradient(): (img: RgbImage)
    ensures img.width == 1920 && img.height == 1080
  {
    Image(1920, 1080, seq(1080, y requires 0 <= y < 1080 =>
      var v := GradientLevel(y);
      seq(1920, x requires 0 <= x < 1920 => Pixel(v, v, v))))
  }

  /** Every row `y` of `img` is grey at level `GradientLevel(y)`, as in the test gradient. */
  predicate IsGradient(img: RgbImage) {
    && img.width == 1920 && img.height == 1080
    && forall y, x :: 0 <= y < 1080 && 0 <= x < 1920 ==>
         img.pixels[y][x] == Pixel(GradientLevel(y), GradientLevel(y), GradientLevel(y))
  }

  lemma GradientIsGradient()
    ensures IsGradient(Gradient())
  {
  }

  /** Rows above 1021 are darker than white: grey level at most 240. */
  lemma GradientUpperNotWhite(img: RgbImage, lo: nat, hi: nat)
    requires IsGradient(img) && lo <= hi <= 1021
    ensures CountWhite(RowsBand(img, lo, hi)) == 0
  {
    var band := RowsBand(img, lo, hi);
    forall i | 0 <= i < |band| ensures !IsWhite(band[i]) {
      RowsBandFrom(img, lo, hi, i);
    }
    NoneCounted(band);
  }

  /** Rows from 64 down are lighter than black: grey level at least 15. */
  lemma GradientLowerNotBlack(img: RgbImage, lo: nat, hi: nat)
    requires IsGradient(img) && 64 <= lo <= hi <= 1080
    ensures CountBlack(RowsBand(img, lo, hi)) == 0
  {
    var band := RowsBand(img, lo, hi);
    forall i | 0 <= i < |band| ensures !IsBlack(band[i]) {
      RowsBandFrom(img, lo, hi, i);
    }
    NoneCounted(band);
  }

  /**
   * A gradient image is not boring: its top band is black and its bottom
   * band white, but neither kind reaches 70% of the 60000 samples (each count
   * is at most 19200 + 10800 + 10800 = 40800).
   */
  lemma GradientNotBoring(img: RgbImage)
    requires IsGradient(img)
    ensures !Boring(Some(img), DEFAULT_THRESHOLD)
  {
    var bw := BorderWidth(img);
    assert bw == 10;
    var top := RowsBand(img, 0, bw);
    var bottom := RowsBand(img, img.height - bw, img.height);
    var left := ColsBand(img, 0, bw);
    var right := ColsBand(img, img.width - bw, img.width);
    var px := BorderPixels(img);
    assert px == top + bottom + left + right;
    BorderPixelCount(img);
    RowsBandLength(img, 0, bw);
    RowsBandLength(img, img.height - bw, img.height);
    ColsBandLength(img, 0, bw);
    ColsBandLength(img, img.width - bw, img.width);
    GradientUpperNotWhite(img, 0, bw);
    GradientLowerNotBlack(img, img.height - bw, img.height);
    CountsBounded(top);
    CountsBounded(bottom);
    CountsBounded(left);
    CountsBounded(right);
    CountsAppend(top, bottom);
    CountsAppend(top + bottom, left);
    CountsAppend(top + bottom + left, right);
    assert |px| == 60000;
    var white, black := CountWhite(px), CountBlack(px);
    assert white <= 40800 && black <= 40800;
    assert !Exceeds(white, 60000, DEFAULT_THRESHOLD) && !Exceeds(black, 60000, DEFAULT_THRESHOLD);
  }

  /** The test suite's solid white 1920 × 1080 image is boring. */
  lemma SolidWhiteBoring()
    ensures Boring(Some(SolidImageOf(1920, 1080, Pixel(255, 255, 255))), DEFAULT_THRESHOLD)
  {
    SolidImage(SolidImageOf(1920, 1080, Pixel(255, 255, 255)), Pixel(255, 255, 255));
  }

  /** The test suite's solid black 1920 × 1080 image is boring. */
  lemma SolidBlackBoring()
    ensures Boring(Some(SolidImageOf(1920, 1080, Pixel(0, 0, 0))), DEFAULT_THRESHOLD)
  {
    SolidImage(SolidImageOf(1920, 1080, Pixel(0, 0, 0)), Pixel(0, 0, 0));
  }

  /** The test suite's gradient is not boring. */
  lemma TestGradientNotBoring()
    ensures !Boring(Some(Gradient()), DEFAULT_THRESHOLD)
  {
    GradientIsGradient();
    GradientNotBoring(Gradient());
  }
}
