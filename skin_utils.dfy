/**
  Skin validation and texture-id computation.

  A skin file is accepted when it is small enough, decodes as PNG and is 64
  pixels wide and 32 or 64 pixels high. A skin without an alpha channel gets
  one: every pixel of the top-left pixel's colour becomes transparent. The
  texture id is the hexadecimal SHA-256 digest of the pixels, read column by
  column, four bytes R, G, B, A per pixel, with every fully transparent
  pixel read as four zero bytes.

  PNG decoding and SHA-256 are parameters: `decode` maps file bytes to a
  decoded image or to `None` (the null image), and `sha256` maps the byte
  stream to its digest.
*/
module SkinUtils {
  import opened Wrappers
  import opened Text

  /** The largest skin file is one byte short of a raw 64x64 RGBA bitmap. */
  const MaxFileSize: int := 64 * 64 * 4

  /** The components of a `QRgb` as `qRed`, `qGreen`, `qBlue` and `qAlpha` give them. */
  datatype Pixel = Pixel(r: byte, g: byte, b: byte, a: byte)

  /** An image's pixels as columns: `g[x][y]` is the pixel at column `x`, row `y`. */
  type Grid = seq<seq<Pixel>>

  /** A decoded image as a value. */
  datatype Bitmap = Bitmap(columns: Grid, hasAlphaChannel: bool)

  function GridHeight(g: Grid): nat {
    if |g| == 0 then 0 else |g[0]|
  }

  /** Every column of `g` holds `h` pixels. */
  predicate Rectangular(g: Grid, h: nat) {
    forall x :: 0 <= x < |g| ==> |g[x]| == h
  }

  /**
    What a decoder delivers: a rectangular image, and one without an alpha
    channel reports every pixel opaque.
  */
  predicate WellFormed(b: Bitmap) {
    && Rectangular(b.columns, GridHeight(b.columns))
    && (!b.hasAlphaChannel ==>
          forall x, y :: 0 <= x < |b.columns| && 0 <= y < |b.columns[x]| ==> b.columns[x][y].a == 255)
  }

  /** The width of what `QImage::fromData` returns; the null image is 0 wide. */
  function DecodedWidth(img: Option<Bitmap>): nat {
    if img.None? then 0 else |img.value.columns|
  }

  function DecodedHeight(img: Option<Bitmap>): nat {
    if img.None? then 0 else GridHeight(img.value.columns)
  }

  /** The dimensions a skin may have. */
  predicate SkinDimensions(width: nat, height: nat) {
    width == 64 && (height == 32 || height == 64)
  }

  /** `readSkinFromData` accepts `data`: small enough, then of skin dimensions once decoded. */
  predicate AcceptsSkinData(data: seq<byte>, decode: seq<byte> -> Option<Bitmap>) {
    |data| < MaxFileSize && SkinDimensions(DecodedWidth(decode(data)), DecodedHeight(decode(data)))
  }

  // ---------------------------------------------------------------- the hashed byte stream

  /** The four bytes one pixel contributes: zeros for a fully transparent pixel. */
  function PixelBytes(p: Pixel): (r: seq<byte>)
    ensures |r| == 4
    ensures p.a == 0 <==> r[3] == 0
    ensures p.a == 0 ==> r == [0, 0, 0, 0]
    ensures p.a != 0 ==> r == [p.r, p.g, p.b, p.a]
  {
    if p.a == 0 then [0, 0, 0, 0] else [p.r, p.g, p.b, p.a]
  }

  /** The bytes of one column, top to bottom. */
  function ColumnBytes(col: seq<Pixel>): seq<byte> {
    if |col| == 0 then [] else ColumnBytes(col[..|col| - 1]) + PixelBytes(col[|col| - 1])
  }

  /** The bytes handed to the hash: the columns left to right. */
  function SkinBytes(g: Grid): seq<byte> {
    if |g| == 0 then [] else SkinBytes(g[..|g| - 1]) + ColumnBytes(g[|g| - 1])
  }

  /** The texture id of an image: the lower-case hex digest of its byte stream. */
  function TextureId(g: Grid, sha256: seq<byte> -> seq<byte>): string {
    ToHex(sha256(SkinBytes(g)))
  }

  lemma {:induction false} ColumnBytesAt(col: seq<Pixel>, y: nat, k: nat)
    requires y < |col| && k < 4
    ensures |ColumnBytes(col)| == 4 * |col|
    ensures ColumnBytes(col)[4 * y + k] == PixelBytes(col[y])[k]
  {
    var n := |col| - 1;
    if y < n {
      ColumnBytesAt(col[..n], y, k);
    } else if n > 0 {
      ColumnBytesAt(col[..n], 0, 0);
    }
  }

  lemma {:induction false} ColumnBytesLength(col: seq<Pixel>)
    ensures |ColumnBytes(col)| == 4 * |col|
  {
    if |col| > 0 {
      ColumnBytesAt(col, 0, 0);
    }
  }

  /** Dropping the last column keeps the image rectangular. */
  lemma RectangularPrefix(g: Grid, h: nat, n: nat)
    requires Rectangular(g, h) && n <= |g|
    ensures Rectangular(g[..n], h)
  {
    assert forall x :: 0 <= x < n ==> g[..n][x] == g[x];
  }

  /** Where column `x` of an `h`-high image starts in the stream: `4 * h` bytes per column before it. */
  function ColumnStart(h: nat, x: nat): nat {
    if x == 0 then 0 else ColumnStart(h, x - 1) + 4 * h
  }

  lemma {:induction false} ColumnStartMonotone(h: nat, x: nat, n: nat)
    requires x < n
    ensures ColumnStart(h, x) + 4 * h <= ColumnStart(h, n)
    decreases n
  {
    if x < n - 1 {
      ColumnStartMonotone(h, x, n - 1);
    }
  }

  lemma {:induction false} ColumnStartIsProduct(h: nat, x: nat)
    ensures ColumnStart(h, x) == 4 * h * x
  {
    if x > 0 {
      ColumnStartIsProduct(h, x - 1);
      assert 4 * h * (x - 1) + 4 * h == 4 * h * x;
    }
  }

  lemma {:induction false} SkinBytesColumns(g: Grid, h: nat)
    requires Rectangular(g, h)
    ensures |SkinBytes(g)| == ColumnStart(h, |g|)
  {
    if |g| > 0 {
      var n := |g| - 1;
      RectangularPrefix(g, h, n);
      SkinBytesColumns(g[..n], h);
      ColumnBytesLength(g[n]);
    }
  }

  /** The stream is exactly four bytes per pixel. */
  lemma {:induction false} SkinBytesLength(g: Grid, h: nat)
    requires Rectangular(g, h)
    ensures |SkinBytes(g)| == 4 * h * |g|
  {
    SkinBytesColumns(g, h);
    ColumnStartIsProduct(h, |g|);
  }

  lemma {:induction false} SkinBytesAtColumn(g: Grid, h: nat, x: nat, y: nat, k: nat)
    requires Rectangular(g, h)
    requires x < |g| && y < h && k < 4
    ensures ColumnStart(h, x) + 4 * y + k < |SkinBytes(g)|
    ensures SkinBytes(g)[ColumnStart(h, x) + 4 * y + k] == PixelBytes(g[x][y])[k]
  {
    var n := |g| - 1;
    RectangularPrefix(g, h, n);
    SkinBytesColumns(g[..n], h);
    var prefix, last := SkinBytes(g[..n]), ColumnBytes(g[n]);
    assert SkinBytes(g) == prefix + last;
    ColumnBytesLength(g[n]);
    var i := ColumnStart(h, x) + 4 * y + k;
    if x < n {
      SkinBytesAtColumn(g[..n], h, x, y, k);
      ColumnStartMonotone(h, x, n);
      assert g[..n][x] == g[x];
      assert SkinBytes(g)[i] == prefix[i];
    } else {
      ColumnBytesAt(g[n], y, k);
      assert SkinBytes(g)[i] == last[4 * y + k];
    }
  }

  /**
    Byte `k` of pixel (`x`, `y`) sits at offset 4 * (x * h + y): x is the
    outer loop, y the inner one, and the pixel's bytes come in R, G, B, A order.
  */
  lemma {:induction false} SkinBytesAt(g: Grid, h: nat, x: nat, y: nat, k: nat)
    requires Rectangular(g, h)
    requires x < |g| && y < h && k < 4
    ensures 4 * h * x + 4 * y + k < |SkinBytes(g)|
    ensures SkinBytes(g)[4 * h * x + 4 * y + k] == PixelBytes(g[x][y])[k]
  {
    SkinBytesAtColumn(g, h, x, y, k);
    ColumnStartIsProduct(h, x);
    var i := ColumnStart(h, x) + 4 * y + k;
    assert i == 4 * h * x + 4 * y + k;
    assert i < |SkinBytes(g)|;
  }

  /** Two pixels the hash cannot tell apart: same alpha, and the same colour unless fully transparent. */
  predicate HashEquivalent(p: Pixel, q: Pixel) {
    p.a == q.a && (p.a != 0 ==> p.r == q.r && p.g == q.g && p.b == q.b)
  }

  /** Two images of one shape whose pixels are pairwise hash-equivalent. */
  predicate SameForHash(g1: Grid, g2: Grid, h: nat) {
    && |g1| == |g2| && Rectangular(g1, h) && Rectangular(g2, h)
    && forall x, y :: 0 <= x < |g1| && 0 <= y < h ==> HashEquivalent(g1[x][y], g2[x][y])
  }

  lemma {:induction false} ColumnBytesRespectEquivalence(c1: seq<Pixel>, c2: seq<Pixel>)
    requires |c1| == |c2|
    requires forall y :: 0 <= y < |c1| ==> HashEquivalent(c1[y], c2[y])
    ensures ColumnBytes(c1) == ColumnBytes(c2)
  {
    if |c1| > 0 {
      var n := |c1| - 1;
      ColumnBytesRespectEquivalence(c1[..n], c2[..n]);
      assert PixelBytes(c1[n]) == PixelBytes(c2[n]);
    }
  }

  /**
    Two images that differ only in the colour of fully transparent pixels
    give the same byte stream, hence the same texture id.
  */
  lemma {:induction false} TransparentColourIgnored(g1: Grid, g2: Grid, h: nat)
    requires SameForHash(g1, g2, h)
    ensures SkinBytes(g1) == SkinBytes(g2)
  {
    if |g1| > 0 {
      var n := |g1| - 1;
      TransparentColourIgnored(g1[..n], g2[..n], h);
      ColumnBytesRespectEquivalence(g1[n], g2[n]);
    }
  }

  /**
    Conversely, two images of one shape with the same byte stream differ at
    most in the colour of fully transparent pixels.
  */
  lemma StreamDeterminesVisiblePixels(g1: Grid, g2: Grid, h: nat)
    requires |g1| == |g2| && Rectangular(g1, h) && Rectangular(g2, h)
    requires SkinBytes(g1) == SkinBytes(g2)
    ensures SameForHash(g1, g2, h)
  {
    forall x, y | 0 <= x < |g1| && 0 <= y < h
      ensures HashEquivalent(g1[x][y], g2[x][y])
    {
      var b1, b2 := PixelBytes(g1[x][y]), PixelBytes(g2[x][y]);
      forall k | 0 <= k < 4 ensures b1[k] == b2[k] {
        SkinBytesAt(g1, h, x, y, k);
        SkinBytesAt(g2, h, x, y, k);
      }
      assert b1 == b2;
    }
  }

  // ---------------------------------------------------------------- alpha synthesis

  /** The colour-key mask applied to one pixel: a pixel of the key colour becomes fully transparent. */
  function MaskPixel(p: Pixel, key: Pixel): Pixel {
    if p == key then p.(a := 0) else p
  }

  /** The image with every pixel of the key colour made fully transparent. */
  function MaskOut(g: Grid, key: Pixel): (r: Grid)
    ensures |r| == |g|
    ensures forall x :: 0 <= x < |g| ==> |r[x]| == |g[x]|
    ensures forall x, y :: 0 <= x < |g| && 0 <= y < |g[x]| ==> r[x][y] == MaskPixel(g[x][y], key)
  {
    seq(|g|, x requires 0 <= x < |g| =>
      seq(|g[x]|, y requires 0 <= y < |g[x]| => MaskPixel(g[x][y], key)))
  }

  /** The image `readSkinFromData` hands out for an accepted decoded image. */
  function NormalisedSkin(b: Bitmap): Grid
    requires |b.columns| > 0 && |b.columns[0]| > 0
  {
    if b.hasAlphaChannel then b.columns else MaskOut(b.columns, b.columns[0][0])
  }

  /**
    Without an alpha channel, every pixel of the top-left pixel's colour,
    the top-left pixel itself included, becomes fully transparent; every
    other pixel stays opaque with its colour.
  */
  lemma AlphaSynthesis(b: Bitmap)
    requires WellFormed(b) && !b.hasAlphaChannel
    requires |b.columns| > 0 && |b.columns[0]| > 0
    ensures var g, s := b.columns, NormalisedSkin(b);
      && |s| == |g| && Rectangular(s, GridHeight(g))
      && s[0][0].a == 0
      && (forall x, y :: 0 <= x < |g| && 0 <= y < |g[x]| && g[x][y] == g[0][0] ==>
            s[x][y].a == 0)
      && (forall x, y :: 0 <= x < |g| && 0 <= y < |g[x]| && g[x][y] != g[0][0] ==>
            s[x][y] == g[x][y] && s[x][y].a == 255)
  {
  }

  /**
    The id of a skin without an alpha channel depends only on which pixels
    carry the key colour and on the colours of the others: the colour a
    masked pixel keeps does not matter.
  */
  lemma MaskedColourIgnored(g: Grid, key: Pixel, h: nat, sha256: seq<byte> -> seq<byte>)
    requires Rectangular(g, h)
    ensures TextureId(MaskOut(g, key), sha256) ==
            TextureId(seq(|g|, x requires 0 <= x < |g| =>
              seq(h, y requires 0 <= y < h => if g[x][y] == key then Pixel(0, 0, 0, 0) else g[x][y])), sha256)
  {
    var cleared := seq(|g|, x requires 0 <= x < |g| =>
      seq(h, y requires 0 <= y < h => if g[x][y] == key then Pixel(0, 0, 0, 0) else g[x][y]));
    TransparentColourIgnored(MaskOut(g, key), cleared, h);
  }

  // ---------------------------------------------------------------- the image object

  /** A `QImage`: its pixel array, indexed `[x, y]`, and whether it has an alpha channel. */
  class Image {
    var pixels: array2<Pixel>
    var hasAlphaChannel: bool

    /** The null image. */
    constructor ()
      ensures pixels.Length0 == 0 && pixels.Length1 == 0 && !hasAlphaChannel
    {
      pixels := new Pixel[0, 0];
      hasAlphaChannel := false;
    }

    /** `image = img`: the image takes a fresh copy of the decoded pixels and their alpha flag. */
    method Assign(b: Bitmap)
      requires Rectangular(b.columns, GridHeight(b.columns))
      modifies this
      ensures fresh(pixels) && hasAlphaChannel == b.hasAlphaChannel
      ensures Columns() == b.columns
    {
      var cols, w, h := b.columns, |b.columns|, GridHeight(b.columns);
      pixels := new Pixel[w, h]((x, y) requires 0 <= x < w && 0 <= y < h => cols[x][y]);
      hasAlphaChannel := b.hasAlphaChannel;
      assert forall x :: 0 <= x < w ==> Columns()[x] == cols[x];
    }

    /** The pixels as a value, column by column. */
    function Columns(): (g: Grid)
      reads this, pixels
      ensures |g| == pixels.Length0 && Rectangular(g, pixels.Length1)
      ensures forall x, y :: 0 <= x < pixels.Length0 && 0 <= y < pixels.Length1 ==> g[x][y] == pixels[x, y]
    {
      seq(pixels.Length0, x requires 0 <= x < pixels.Length0 reads this, pixels =>
        seq(pixels.Length1, y requires 0 <= x < pixels.Length0 && 0 <= y < pixels.Length1 reads this, pixels =>
          pixels[x, y]))
    }

    /**
      `setAlphaChannel(createMaskFromColor(pixel(0, 0), MaskOutColor))`: the
      key colour is read first, then every pixel of that colour is made
      fully transparent in place.
    */
    method SetAlphaFromTopLeft()
      requires pixels.Length0 > 0 && pixels.Length1 > 0
      modifies this, pixels
      ensures pixels == old(pixels) && hasAlphaChannel
      ensures Columns() == MaskOut(old(Columns()), old(pixels[0, 0]))
    {
      var a := pixels;
      var key := a[0, 0];
      for x := 0 to a.Length0
        invariant pixels == a
        invariant forall i, j :: 0 <= i < x && 0 <= j < a.Length1 ==> a[i, j] == MaskPixel(old(a[i, j]), key)
        invariant forall i, j :: x <= i < a.Length0 && 0 <= j < a.Length1 ==> a[i, j] == old(a[i, j])
      {
        for y := 0 to a.Length1
          invariant pixels == a
          invariant forall i, j :: 0 <= i < x && 0 <= j < a.Length1 ==> a[i, j] == MaskPixel(old(a[i, j]), key)
          invariant forall j :: 0 <= j < y ==> a[x, j] == MaskPixel(old(a[x, j]), key)
          invariant forall i, j :: x <= i < a.Length0 && 0 <= j < a.Length1 && (i > x || j >= y) ==> a[i, j] == old(a[i, j])
        {
          a[x, y] := MaskPixel(a[x, y], key);
        }
      }
      hasAlphaChannel := true;
      ghost var before := old(Columns());
      forall x | 0 <= x < a.Length0 ensures Columns()[x] == MaskOut(before, key)[x] {
      }
    }
  }

  /**
    `hashSkin`: feeds the pixels, x outer and y inner, to the hash and
    returns its hex digest.
  */
  method HashSkin(image: Image, sha256: seq<byte> -> seq<byte>) returns (id: string)
    ensures id == TextureId(image.Columns(), sha256)
  {
    ghost var g := image.Columns();
    var checksum: seq<byte> := [];
    for x := 0 to image.pixels.Length0
      invariant checksum == SkinBytes(g[..x])
    {
      for y := 0 to image.pixels.Length1
        invariant checksum == SkinBytes(g[..x]) + ColumnBytes(g[x][..y])
      {
        var pixel := image.pixels[x, y];
        if pixel.a == 0 {
          checksum := checksum + [0, 0, 0, 0];
        } else {
          checksum := checksum + [pixel.r, pixel.g, pixel.b, pixel.a];
        }
        assert g[x][..y + 1][..y] == g[x][..y];
      }
      assert g[x][..image.pixels.Length1] == g[x];
      assert g[..x + 1][..x] == g[..x];
    }
    assert g[..image.pixels.Length0] == g;
    id := ToHex(sha256(checksum));
  }

  /**
    `readSkinFromData`: rejects oversized data before decoding, then any
    image that is not 64 wide and 32 or 64 high, leaving both outputs
    untouched; otherwise hands out the image, with an alpha channel
    synthesised when it had none, and its texture id.
  */
  method ReadSkinFromData(data: seq<byte>, imageOut: Image, textureIdIn: string,
                          decode: seq<byte> -> Option<Bitmap>, sha256: seq<byte> -> seq<byte>)
    returns (ok: bool, textureIdOut: string)
    requires decode(data).Some? ==> WellFormed(decode(data).value)
    modifies imageOut
    ensures ok == AcceptsSkinData(data, decode)
    ensures |data| >= 16384 ==> !ok
    ensures !ok ==> unchanged(imageOut) && textureIdOut == textureIdIn
    ensures ok ==> fresh(imageOut.pixels) && imageOut.hasAlphaChannel
    ensures ok ==> imageOut.Columns() == NormalisedSkin(decode(data).value)
    ensures ok ==> textureIdOut == TextureId(imageOut.Columns(), sha256)
  {
    if |data| >= MaxFileSize {
      return false, textureIdIn;
    }
    var img := decode(data);
    if DecodedWidth(img) != 64 {
      return false, textureIdIn;
    }
    var height := DecodedHeight(img);
    if height != 32 && height != 64 {
      return false, textureIdIn;
    }
    var cols := img.value.columns;
    imageOut.Assign(img.value);
    if !img.value.hasAlphaChannel {
      assert imageOut.pixels[0, 0] == cols[0][0];
      imageOut.SetAlphaFromTopLeft();
      assert imageOut.Columns() == MaskOut(cols, cols[0][0]);
    }
    ghost var result := imageOut.Columns();
    assert result == NormalisedSkin(img.value);
    ok := true;
    textureIdOut := HashSkin(imageOut, sha256);
    assert forall x :: 0 <= x < 64 ==> imageOut.Columns()[x] == result[x];
  }

  // ---------------------------------------------------------------- reading from a file

  /** What `QFileInfo` reports about the path. */
  datatype FileInfo = FileInfo(baseName: string, isFile: bool, suffix: string, size: int)

  function AsciiLower(s: string): (r: string)
    ensures |r| == |s|
    ensures forall i :: 0 <= i < |s| ==> r[i] == if 'A' <= s[i] <= 'Z' then (s[i] as int + 32) as char else s[i]
  {
    if |s| == 0 then [] else
      [if 'A' <= s[0] <= 'Z' then (s[0] as int + 32) as char else s[0]] + AsciiLower(s[1..])
  }

  /** The suffix names a PNG file, in any letter case. */
  predicate IsPngSuffix(suffix: string) {
    AsciiLower(suffix) == "png"
  }

  lemma PngSuffixAnyCase(suffix: string)
    ensures IsPngSuffix(suffix) <==>
      |suffix| == 3 && suffix[0] in {'p', 'P'} && suffix[1] in {'n', 'N'} && suffix[2] in {'g', 'G'}
  {
    var l := AsciiLower(suffix);
    if IsPngSuffix(suffix) {
      assert l[0] == 'p' && l[1] == 'n' && l[2] == 'g';
    }
  }

  /** The checks `readSkinFromFile` makes before reading: a file, a PNG suffix, under the size cap. */
  predicate FileMetadataAccepted(info: FileInfo) {
    info.isFile && IsPngSuffix(info.suffix) && info.size < MaxFileSize
  }

  /**
    `readSkinFromFile`: sets the key to the base name first, then rejects
    what is not a file, has no PNG suffix or is too large, all before
    reading. `contents` is what reading the file gives, `None` when reading
    fails.
  */
  method ReadSkinFromFile(info: FileInfo, contents: Option<seq<byte>>, dataIn: seq<byte>, imageOut: Image,
                          textureIdIn: string, decode: seq<byte> -> Option<Bitmap>, sha256: seq<byte> -> seq<byte>)
    returns (ok: bool, keyOut: string, dataOut: seq<byte>, textureIdOut: string)
    requires contents.Some? && decode(contents.value).Some? ==> WellFormed(decode(contents.value).value)
    modifies imageOut
    ensures keyOut == info.baseName
    ensures !FileMetadataAccepted(info) || contents.None? ==>
      !ok && dataOut == dataIn && textureIdOut == textureIdIn && unchanged(imageOut)
    ensures FileMetadataAccepted(info) && contents.Some? ==>
      && dataOut == contents.value
      && ok == AcceptsSkinData(dataOut, decode)
      && (!ok ==> textureIdOut == textureIdIn && unchanged(imageOut))
      && (ok ==> imageOut.Columns() == NormalisedSkin(decode(dataOut).value)
                 && textureIdOut == TextureId(imageOut.Columns(), sha256))
  {
    keyOut := info.baseName;
    dataOut := dataIn;
    textureIdOut := textureIdIn;
    if !info.isFile {
      return false, keyOut, dataOut, textureIdOut;
    }
    if AsciiLower(info.suffix) != "png" {
      return false, keyOut, dataOut, textureIdOut;
    }
    if info.size >= MaxFileSize {
      return false, keyOut, dataOut, textureIdOut;
    }
    if contents.None? {
      return false, keyOut, dataOut, textureIdOut;
    }
    dataOut := contents.value;
    ok, textureIdOut := ReadSkinFromData(dataOut, imageOut, textureIdIn, decode, sha256);
  }
}
