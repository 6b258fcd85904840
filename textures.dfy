/** The texture object: loading a 2D image (with power-of-two correction and
    size tiers), a cube map (from a vertical cross or from six files) or a
    DirectDraw Surface file with its own mipmap chain, and unloading.

    The outside world is a `Platform` value: the images SDL decodes, the DDS
    files the DDS reader accepts, what the OpenGL driver supports and the
    texture name it hands out. The OpenGL calls a load makes are returned, in
    order, as a sequence of `GlCall`s. */
module Textures {
  import opened Base
  import opened GlEnums
  import opened Resample
  import opened TextureFormat
  import PowerOfTwo
  import Cube = CubeMap
  import DdsMips

  /** A decoded image: `w` x `h` pixels of `bytespp` bytes, rows `pitch`
      bytes apart. */
  datatype Surface = Surface(w: nat, h: nat, bytespp: nat, pitch: nat, pixels: seq<Byte>)

  predicate SurfaceValid(s: Surface)
  {
    s.w >= 1 && s.h >= 1 && Holds(|s.pixels|, s.w, s.h, s.pitch, s.bytespp)
  }

  /** What the DDS reader extracts from a file: the pixel format, the size of
      level 0, the number of levels and the length of the pixel data. */
  datatype DdsImage = DdsImage(format: PixelFormat, width: nat, height: nat, levels: nat, texlen: nat)

  /** The environment of a load. `images` are the files SDL_image decodes,
      `dds` the files that carry the DDS magic and that the DDS reader
      accepts; `acceptsData` says whether SDL wraps caller-supplied pixels;
      `newTexture` is the name glGenTextures returns; `trailing` is the
      memory that follows a surface's pixels, which the upsampler reads. */
  datatype Platform = Platform(
    images: map<string, Surface>,
    dds: map<string, DdsImage>,
    acceptsData: bool,
    npotSupported: bool,
    hasGenerateMipmap: bool,
    apple: bool,
    newTexture: nat,
    trailing: seq<Byte>)

  predicate PlatformValid(p: Platform)
  {
    p.newTexture != 0
    && (forall path :: path in p.images ==> SurfaceValid(p.images[path]))
    && (forall path :: path in p.dds ==> p.dds[path].width >= 1 && p.dds[path].height >= 1)
  }

  /** The OpenGL calls a load makes. `LevelImage` is one level of a DDS
      chain, uploaded raw or block-compressed as its `compressed` flag says. */
  datatype GlCall =
    | GenTexture(id: nat)
    | BindTexture(target: Target, id: nat)
    | Sampler(target: Target, params: SamplerParams)
    | TexImage(target: Target, level: nat, internal: PixelFormat, w: nat, h: nat, format: PixelFormat, pixels: seq<Byte>)
    | LevelImage(target: Target, internal: PixelFormat, format: PixelFormat, upload: DdsMips.LevelUpload)
    | GenerateMipmap(target: Target)
    | DeleteTexture(id: nat)

  /** Mipmap generation happens only where the driver offers it. */
  function MipmapCalls(target: Target, hasGenerateMipmap: bool): seq<GlCall>
  {
    if hasGenerateMipmap then [GenerateMipmap(target)] else []
  }

  // ---------------------------------------------------------------------
  // Sizes on the 2D path

  /** Power-of-two correction is needed when a side is not a power of two and
      the driver cannot take such textures. */
  predicate NeedsPot(w: nat, h: nat, npotSupported: bool)
  {
    !(PowerOfTwo.IsPowerOfTwo(w) && PowerOfTwo.IsPowerOfTwo(h)) && !npotSupported
  }

  /** A side after power-of-two correction. */
  function PotSide(n: nat, correct: bool): nat
  {
    if correct then PowerOfTwo.NextPow2(n) else n
  }

  /** A side after the application's size tier. */
  function TierSide(n: nat, tier: SizeTier): nat
  {
    match tier
    case Small => if n > 128 then n / 4 else n
    case Medium => if n > 256 then n / 2 else n
    case Full => n
  }

  /** The tier never grows a side and never shrinks one to nothing. */
  lemma {:induction false} TierSideBounds(n: nat, tier: SizeTier)
    requires n >= 1
    ensures 1 <= TierSide(n, tier) <= n
    ensures tier == Full ==> TierSide(n, tier) == n
  {
  }

  /** The downsampler needs the tier to divide the side exactly. */
  predicate TierDivides(n: nat, tier: SizeTier)
  {
    TierSide(n, tier) >= 1 && (n / TierSide(n, tier)) * TierSide(n, tier) == n
  }

  /** Power-of-two sides are always divided exactly, and stay powers of two. */
  lemma {:induction false} PowerOfTwoTierDivides(k: nat, tier: SizeTier)
    ensures TierDivides(PowerOfTwo.Pow2(k), tier)
    ensures PowerOfTwo.IsPow2(TierSide(PowerOfTwo.Pow2(k), tier))
  {
    var n := PowerOfTwo.Pow2(k);
    var t := TierSide(n, tier);
    if t == n {
      DivUnique(n, n, 1, 0);
    } else {
      var d := if tier == Small then 2 else 1;
      var f := if tier == Small then 4 else 2;
      assert k >= d + 1 by {
        if k <= d { PowerOfTwo.Pow2Monotone(k, 2); }
      }
      var m := PowerOfTwo.Pow2(k - d);
      assert n == f * m by {
        if d == 2 { assert PowerOfTwo.Pow2(k - 1) == 2 * m; }
      }
      DivUnique(n, f, m, 0);
      DivUnique(n, m, f, 0);
    }
  }

  /** Whether the tier changes either side. */
  predicate Shrinks(w: nat, h: nat, tier: SizeTier)
  {
    TierSide(w, tier) < w || TierSide(h, tier) < h
  }

  /** What the 2D path demands of a surface: the upsampler's debug
      assertions (at most 4096 pixels a side, 1 to 4 bytes per pixel) and its
      read of one pixel and one row past the image, then the downsampler's
      exact division. */
  predicate ResampleSafe(s: Surface, tier: SizeTier, p: Platform)
  {
    var pot := NeedsPot(s.w, s.h, p.npotSupported);
    var w1 := PotSide(s.w, pot);
    var h1 := PotSide(s.h, pot);
    (pot ==> 1 <= s.bytespp <= 4 && w1 <= 4096 && h1 <= 4096
             && UpsampleReadable(|s.pixels + p.trailing|, s.w, s.h, s.pitch, s.bytespp))
    && (Shrinks(w1, h1, tier) ==> 1 <= s.bytespp <= 4 && TierDivides(w1, tier) && TierDivides(h1, tier))
  }

  /** The stored sides of a 2D texture loaded from a `w` x `h` surface. */
  function FinalSide(n: nat, pot: bool, tier: SizeTier): nat
  {
    TierSide(PotSide(n, pot), tier)
  }

  /** After correction each side is the least power of two not below the
      original, so it is a power of two and the correction is needed no more. */
  lemma {:induction false} PotSideLeast(n: nat)
    ensures PowerOfTwo.IsPow2(PotSide(n, true)) && n <= PotSide(n, true)
    ensures forall k: nat :: n <= PowerOfTwo.Pow2(k) ==> PotSide(n, true) <= PowerOfTwo.Pow2(k)
    ensures PowerOfTwo.IsPowerOfTwo(PotSide(n, true))
  {
    PowerOfTwo.NextPow2IsLeast(n);
    PowerOfTwo.IsPowerOfTwoExact(PotSide(n, true));
  }

  /** On a driver without NPOT support a corrected image satisfies the
      downsampler's exact division for every tier. */
  lemma {:induction false} CorrectedSidesDivide(n: nat, tier: SizeTier)
    ensures TierDivides(PotSide(n, true), tier)
  {
    PowerOfTwo.NextPow2IsLeast(n);
    var k: nat :| PowerOfTwo.Pow2(k) == PotSide(n, true);
    PowerOfTwoTierDivides(k, tier);
  }

  /** A 100 x 50 image on a driver without NPOT support becomes 128 x 64;
      the SMALL tier then leaves 128 alone but a 300-pixel side on an NPOT
      driver is halved by MEDIUM to 150. */
  lemma {:induction false} FinalSideExamples()
    ensures FinalSide(100, NeedsPot(100, 50, false), Small) == 128
    ensures FinalSide(50, NeedsPot(100, 50, false), Small) == 64
    ensures FinalSide(300, NeedsPot(300, 300, true), Medium) == 150
  {
    assert PowerOfTwo.NextPow2(100) == 128 && PowerOfTwo.NextPow2(50) == 64 by {
      assert PowerOfTwo.NextPow2(13) == 16;
    }
    assert PowerOfTwo.BitAnd(100, 99) == 96;
  }

  /** A corrected side covers the original side. */
  lemma {:induction false} PotSideCovers(n: nat)
    ensures 1 <= PotSide(n, true) && n <= PotSide(n, true)
  {
    PowerOfTwo.NextPow2IsLeast(n);
    var k :| PowerOfTwo.Pow2(k) == PotSide(n, true);
  }

  /** `pixels` holds, for each channel of each pixel, the bilinear sample
      of `s` (followed by `trailing`) at the scale from `s.w` x `s.h` up to
      `w` x `h`. */
  ghost predicate BilinearUpsampled(pixels: seq<Byte>, pitch: nat, w: nat, h: nat, s: Surface, trailing: seq<Byte>)
  {
    w >= 1 && h >= 1
    && forall y, x, i :: 0 <= y < h && 0 <= x < w && 0 <= i < s.bytespp ==>
      ByteAt(pixels, At(pitch, s.bytespp, y, x, i))
        == Bilinear(s.pixels + trailing, s.pitch, s.bytespp, Step(s.w, w), Step(s.h, h), y, x, i)
  }

  /** The correction itself: both sides rounded up to powers of two and the
      surface resampled into a packed buffer of that size. */
  method UpsampleCorrected(s: Surface, trailing: seq<Byte>) returns (pixels: seq<Byte>, pitch: nat, w: nat, h: nat)
    requires SurfaceValid(s) && 1 <= s.bytespp <= 4
    requires PotSide(s.w, true) <= 4096 && PotSide(s.h, true) <= 4096
    requires UpsampleReadable(|s.pixels + trailing|, s.w, s.h, s.pitch, s.bytespp)
    ensures w == PotSide(s.w, true) && h == PotSide(s.h, true)
    ensures w >= 1 && h >= 1 && pitch == w * s.bytespp && Holds(|pixels|, w, h, pitch, s.bytespp)
    ensures BilinearUpsampled(pixels, pitch, w, h, s, trailing)
  {
    w := PowerOfTwo.RoundUpToPowerOfTwo(s.w);
    h := PowerOfTwo.RoundUpToPowerOfTwo(s.h);
    PotSideCovers(s.w);
    PotSideCovers(s.h);
    MulNonNegative(w, s.bytespp);
    pitch := w * s.bytespp;
    PackedHolds(w, h, s.bytespp);
    MulNonNegative(w, h);
    MulNonNegative(w * h, s.bytespp);
    var pixelsu := new Byte[w * h * s.bytespp];
    SampleUpBilin(s.bytespp, s.w, s.h, s.pitch, s.pixels + trailing, w, h, pitch, pixelsu);
    pixels := pixelsu[..];
  }

  /** Power-of-two correction: the surface unchanged when it is not needed,
      otherwise a packed buffer of the rounded-up sides holding the bilinear
      resampling of the surface (whose last row and column are blended with
      the memory that follows it). */
  method UpsampleToPot(s: Surface, p: Platform) returns (pixels: seq<Byte>, pitch: nat, w: nat, h: nat)
    requires SurfaceValid(s) && ResampleSafe(s, Full, p)
    ensures w == PotSide(s.w, NeedsPot(s.w, s.h, p.npotSupported))
    ensures h == PotSide(s.h, NeedsPot(s.w, s.h, p.npotSupported))
    ensures w >= 1 && h >= 1 && Holds(|pixels|, w, h, pitch, s.bytespp)
    ensures !NeedsPot(s.w, s.h, p.npotSupported) ==> pixels == s.pixels && pitch == s.pitch
    ensures NeedsPot(s.w, s.h, p.npotSupported) ==> pitch == w * s.bytespp
    ensures NeedsPot(s.w, s.h, p.npotSupported) ==> BilinearUpsampled(pixels, pitch, w, h, s, p.trailing)
  {
    pixels, pitch, w, h := s.pixels, s.pitch, s.w, s.h;
    var ispot := PowerOfTwo.IsPowerOfTwo(s.w) && PowerOfTwo.IsPowerOfTwo(s.h);
    if !ispot && !p.npotSupported {
      pixels, pitch, w, h := UpsampleCorrected(s, p.trailing);
    }
  }

  /** `pixels` holds, for each channel of each pixel, the average of the
      `scalex` x `scaley` block of `src` it covers. */
  ghost predicate BoxAveraged(pixels: seq<Byte>, pitch: nat, w: nat, h: nat, bpp: nat,
                              src: seq<Byte>, srcPitch: nat, scalex: nat, scaley: nat)
  {
    scalex >= 1 && scaley >= 1
    && forall y, x, i :: 0 <= y < h && 0 <= x < w && 0 <= i < bpp ==>
         ByteAt(pixels, At(pitch, bpp, y, x, i)) == BoxAverage(src, srcPitch, bpp, scalex, scaley, y, x, i)
  }

  /** The size tier: the image unchanged when neither side shrinks,
      otherwise a packed buffer of the reduced sides holding the box average
      of the image. */
  method ShrinkToTier(src: seq<Byte>, srcPitch: nat, w: nat, h: nat, bytespp: nat, tier: SizeTier)
    returns (pixels: seq<Byte>, pitch: nat, wd: nat, hd: nat)
    requires w >= 1 && h >= 1 && Holds(|src|, w, h, srcPitch, bytespp)
    requires Shrinks(w, h, tier) ==> 1 <= bytespp <= 4 && TierDivides(w, tier) && TierDivides(h, tier)
    ensures wd == TierSide(w, tier) && hd == TierSide(h, tier)
    ensures Holds(|pixels|, wd, hd, pitch, bytespp)
    ensures !Shrinks(w, h, tier) ==> pixels == src && pitch == srcPitch
    ensures Shrinks(w, h, tier) ==> pitch == wd * bytespp
    ensures Shrinks(w, h, tier) ==> BoxAveraged(pixels, pitch, wd, hd, bytespp, src, srcPitch, w / wd, h / hd)
  {
    pixels, pitch := src, srcPitch;
    wd, hd := w, h;
    if tier == Small {
      if wd > 128 { wd := w / 4; }
      if hd > 128 { hd := h / 4; }
    } else if tier == Medium {
      if wd > 256 { wd := w / 2; }
      if hd > 256 { hd := h / 2; }
    }
    if wd < w || hd < h {
      PackedHolds(wd, hd, bytespp);
      MulNonNegative(wd, hd);
      MulNonNegative(wd * hd, bytespp);
      var pixelsd := new Byte[wd * hd * bytespp];
      SampleDownAvg(bytespp, w, h, srcPitch, src, wd, hd, wd * bytespp, pixelsd);
      assert w / wd >= 1 && h / hd >= 1;
      pixels := pixelsd[..];
      pitch := wd * bytespp;
    }
  }

  // ---------------------------------------------------------------------
  // What each loader leaves behind

  /** The surface SDL makes for a load: the caller's pixels, packed, when
      there are any, otherwise the decoded file; None when SDL fails. */
  function SurfaceFor(path: string, info: TextureInfo, p: Platform): Option<Surface>
  {
    if info.data.Some? then
      (if p.acceptsData then Some(DataSurface(info)) else None)
    else if path in p.images then Some(p.images[path])
    else None
  }

  /** Caller-supplied pixels wrapped as a surface with packed rows. */
  function DataSurface(info: TextureInfo): Surface
    requires info.data.Some?
  {
    Surface(info.width, info.height, info.bytespp, info.width * info.bytespp, info.data.value)
  }

  /** The first three calls of every successful load: a new texture name,
      bound to `target`, and the sampler. */
  function Setup(p: Platform, target: Target, params: SamplerParams): seq<GlCall>
  {
    [GenTexture(p.newTexture), BindTexture(target, p.newTexture), Sampler(target, params)]
  }

  /** The pitch of a packed raster, `w` pixels of `bpp` bytes per row. */
  function PackedPitch(w: nat, bpp: nat): nat
  {
    w * bpp
  }

  /** The bytes a 2D load from `s` uploads at the final `width` x `height`:
      the surface's own when nothing is resampled, its bilinear upsampling
      when only the power-of-two correction runs, its box average when only
      the size tier shrinks it, and the box average of a bilinear upsampling
      of it when both run. */
  ghost predicate UploadedPixels(s: Surface, info: TextureInfo, p: Platform, pixels: seq<Byte>, width: nat, height: nat)
  {
    var pot := NeedsPot(s.w, s.h, p.npotSupported);
    var wu, hu := PotSide(s.w, true), PotSide(s.h, true);
    (!pot && !Shrinks(s.w, s.h, info.maxsize) ==> pixels == s.pixels)
    && (pot && !Shrinks(wu, hu, info.maxsize) ==>
          BilinearUpsampled(pixels, PackedPitch(width, s.bytespp), width, height, s, p.trailing))
    && (!pot && Shrinks(s.w, s.h, info.maxsize) ==>
          width >= 1 && height >= 1
          && BoxAveraged(pixels, PackedPitch(width, s.bytespp), width, height, s.bytespp, s.pixels, s.pitch, s.w / width, s.h / height))
    && (pot && Shrinks(wu, hu, info.maxsize) ==> UpThenDown(s, p.trailing, pixels, width, height))
  }

  /** `pixels` is the `width` x `height` box average of some bilinear
      upsampling of `s` to its power-of-two sides. */
  ghost predicate UpThenDown(s: Surface, trailing: seq<Byte>, pixels: seq<Byte>, width: nat, height: nat)
  {
    var wu, hu := PotSide(s.w, true), PotSide(s.h, true);
    width >= 1 && height >= 1
    && exists u :: BilinearUpsampled(u, PackedPitch(wu, s.bytespp), wu, hu, s, trailing)
         && BoxAveraged(pixels, PackedPitch(width, s.bytespp), width, height, s.bytespp, u, PackedPitch(wu, s.bytespp), wu / width, hu / height)
  }

  /** The two resampling stages of a 2D load, as their contracts leave them,
      upload the bytes `UploadedPixels` describes. */
  lemma {:induction false} StagesUpload(s: Surface, info: TextureInfo, p: Platform,
                                        pixelsu: seq<Byte>, pitchu: nat, w: nat, h: nat,
                                        pixels: seq<Byte>, wd: nat, hd: nat)
    requires w == PotSide(s.w, NeedsPot(s.w, s.h, p.npotSupported))
    requires h == PotSide(s.h, NeedsPot(s.w, s.h, p.npotSupported))
    requires !NeedsPot(s.w, s.h, p.npotSupported) ==> pixelsu == s.pixels && pitchu == s.pitch
    requires NeedsPot(s.w, s.h, p.npotSupported) ==> pitchu == PackedPitch(w, s.bytespp)
    requires NeedsPot(s.w, s.h, p.npotSupported) ==> BilinearUpsampled(pixelsu, pitchu, w, h, s, p.trailing)
    requires wd == TierSide(w, info.maxsize) >= 1 && hd == TierSide(h, info.maxsize) >= 1
    requires !Shrinks(w, h, info.maxsize) ==> pixels == pixelsu
    requires Shrinks(w, h, info.maxsize) ==> BoxAveraged(pixels, PackedPitch(wd, s.bytespp), wd, hd, s.bytespp, pixelsu, pitchu, w / wd, h / hd)
    ensures UploadedPixels(s, info, p, pixels, wd, hd)
  {
    if NeedsPot(s.w, s.h, p.npotSupported) && Shrinks(w, h, info.maxsize) {
      assert UpThenDown(s, p.trailing, pixels, wd, hd) by {
        assert BilinearUpsampled(pixelsu, PackedPitch(w, s.bytespp), w, h, s, p.trailing);
        assert BoxAveraged(pixels, PackedPitch(wd, s.bytespp), wd, hd, s.bytespp, pixelsu, PackedPitch(w, s.bytespp), w / wd, h / hd);
      }
    }
  }

  /** The state and calls after a 2D load from surface `s`: the stored sides
      are the final ones, but the format is chosen from the surface's own
      sides; the uploaded bytes are those of `UploadedPixels`. */
  ghost predicate Loaded2D(s: Surface, info: TextureInfo, p: Platform, calls: seq<GlCall>,
                           texid: nat, width: nat, height: nat, target: Target)
  {
    var pot := NeedsPot(s.w, s.h, p.npotSupported);
    var fmt := GetTextureFormat(s.bytespp, info.compress, info.srgb, s.w, s.h, p.apple);
    texid == p.newTexture && target == Texture2D
    && width == FinalSide(s.w, pot, info.maxsize) && height == FinalSide(s.h, pot, info.maxsize)
    && |calls| >= 4 && calls[..3] == Setup(p, Texture2D, SetSampler(info, false, p.hasGenerateMipmap))
    && calls[3].TexImage? && calls[3].target == Texture2D && calls[3].level == 0
    && calls[3].internal == fmt.internal && calls[3].format == fmt.format
    && calls[3].w == width && calls[3].h == height
    && UploadedPixels(s, info, p, calls[3].pixels, width, height)
    && calls[4..] == MipmapCalls(Texture2D, p.hasGenerateMipmap)
  }

  /** The uploads of a DDS chain: level `i` of the chain, with the internal
      format `iformat` and the file's own format. */
  function DdsLevelCalls(img: DdsImage, iformat: PixelFormat): (r: seq<GlCall>)
    requires img.width >= 1 && img.height >= 1
    ensures |r| == img.levels
  {
    seq(img.levels, i requires 0 <= i < img.levels =>
      LevelImage(Texture2D, iformat, img.format,
                 DdsMips.ChainLevel(img.format, img.width, img.height,
                                    DdsMips.BlockLength(img.texlen, img.width, img.height), i)))
  }

  /** The calls of a DDS load: the sampler knows whether the file brings its
      own levels, every level is uploaded with the sRGB-remapped internal
      format, and a single level asks for generated mipmaps. */
  function DdsCalls(img: DdsImage, info: TextureInfo, p: Platform): (r: seq<GlCall>)
    requires img.width >= 1 && img.height >= 1
    ensures |r| == 3 + img.levels + (if img.levels == 1 then |MipmapCalls(Texture2D, p.hasGenerateMipmap)| else 0)
  {
    Setup(p, Texture2D, SetSampler(info, img.levels > 1, p.hasGenerateMipmap))
    + DdsLevelCalls(img, SrgbInternalFormat(img.format, info.srgb))
    + (if img.levels == 1 then MipmapCalls(Texture2D, p.hasGenerateMipmap) else [])
  }

  /** Upload `c` is face `i` cut from the vertical cross `s`. */
  ghost predicate CrossFaceUpload(c: GlCall, s: Surface, i: nat)
    requires i < 6
  {
    c.TexImage? && c.target == Cube.FaceTarget(i) && c.level == 0
    && CubeFaceFormat(s.bytespp).Some? && c.internal == CubeFaceFormat(s.bytespp).value && c.format == c.internal
    && c.w == s.w / 3 && c.h == s.h / 4
    && Cube.FaceCopied(c.pixels, s.pixels, s.w, s.bytespp, i, s.w / 3, s.h / 4, s.h / 4)
  }

  /** The state and calls after a cube load from the vertical cross `s`.
      The texture name is taken and the sides are set before the format is
      checked, so a failed load keeps both. */
  ghost predicate CrossLoaded(s: Surface, info: TextureInfo, p: Platform, ok: bool, calls: seq<GlCall>,
                              texid: nat, width: nat, height: nat, target: Target)
  {
    texid == p.newTexture && target == Target.CubeMap && width == s.w / 3 && height == s.h / 4
    && (ok <==> CubeFaceFormat(s.bytespp).Some?)
    && |calls| >= 3 && calls[..3] == Setup(p, Target.CubeMap, CrossCubeSampler(info.mipmap, p.hasGenerateMipmap))
    && (!ok ==> |calls| == 3)
    && (ok ==> |calls| >= 9
               && (forall j :: 3 <= j < 9 ==> CrossFaceUpload(calls[j], s, j - 3))
               && calls[9..] == (if info.mipmap then MipmapCalls(Target.CubeMap, p.hasGenerateMipmap) else []))
  }

  function CubeFile(path: string, i: nat): string
    requires i < 6
  {
    path + Cube.CubeFileSuffix(i)
  }

  /** Face `i` of a six-file cube map loads: its file decodes, it has the
      sides of face 0, and its bytes per pixel name a format. */
  predicate FileFaceOk(path: string, p: Platform, i: nat)
    requires i < 6
  {
    CubeFile(path, i) in p.images
    && (i != 0 ==> CubeFile(path, 0) in p.images
                   && p.images[CubeFile(path, i)].w == p.images[CubeFile(path, 0)].w
                   && p.images[CubeFile(path, i)].h == p.images[CubeFile(path, 0)].h)
    && CubeFaceFormat(p.images[CubeFile(path, i)].bytespp).Some?
  }

  predicate FacesOk(path: string, p: Platform, n: nat)
    requires n <= 6
  {
    forall i :: 0 <= i < n ==> FileFaceOk(path, p, i)
  }

  /** The upload of face `i`: the whole decoded file, to the face's target. */
  function FileFaceUpload(path: string, p: Platform, i: nat): GlCall
    requires i < 6 && FileFaceOk(path, p, i)
  {
    var s := p.images[CubeFile(path, i)];
    var format := CubeFaceFormat(s.bytespp).value;
    TexImage(Cube.FaceTarget(i), 0, format, s.w, s.h, format, s.pixels)
  }

  function FileFaceUploads(path: string, p: Platform, n: nat): (r: seq<GlCall>)
    requires n <= 6 && FacesOk(path, p, n)
    ensures |r| == n
  {
    if n == 0 then [] else FileFaceUploads(path, p, n - 1) + [FileFaceUpload(path, p, n - 1)]
  }

  /** The state and calls after a six-file cube load. The texture name is
      taken before any file is read, so it stays taken when a face fails; the
      sides are those of face 0 once that file decodes. The sampler comes
      last, and only on success. */
  ghost predicate FilesLoaded(path: string, p: Platform, ok: bool, calls: seq<GlCall>,
                              texid: nat, width: nat, height: nat, target: Target, oldWidth: nat, oldHeight: nat)
  {
    texid == p.newTexture && target == Target.CubeMap
    && (ok <==> FacesOk(path, p, 6))
    && (if CubeFile(path, 0) in p.images
        then width == p.images[CubeFile(path, 0)].w && height == p.images[CubeFile(path, 0)].h
        else width == oldWidth && height == oldHeight)
    && (ok ==> calls == [GenTexture(p.newTexture), BindTexture(Target.CubeMap, p.newTexture)]
                        + FileFaceUploads(path, p, 6) + [Sampler(Target.CubeMap, FileCubeSampler())])
    && (!ok ==> (exists k :: 0 <= k < 6 && FacesOk(path, p, k) && !FileFaceOk(path, p, k)
                             && calls == [GenTexture(p.newTexture), BindTexture(Target.CubeMap, p.newTexture)]
                                         + FileFaceUploads(path, p, k)))
  }

  // ---------------------------------------------------------------------
  // The texture object

  class Texture {
    var texid: nat
    var width: nat
    var height: nat
    var target: Target

    /** A texture that holds nothing. */
    constructor ()
      ensures texid == 0 && width == 0 && height == 0 && target == Texture2D
    {
      texid, width, height, target := 0, 0, 0, Texture2D;
    }

    /** Releases the texture name, if any; the sides and target stay. */
    method Unload() returns (calls: seq<GlCall>)
      modifies this
      ensures texid == 0 && width == old(width) && height == old(height) && target == old(target)
      ensures calls == (if old(texid) != 0 then [DeleteTexture(old(texid))] else [])
    {
      calls := [];
      if texid != 0 {
        calls := [DeleteTexture(texid)];
      }
      texid := 0;
    }

    /** Loads a DDS file with its mipmap chain. A file that is missing, is
        not DDS or is not understood fails without touching anything. The
        sides are not stored: the file's sides only ever reach locals. */
    method LoadDDS(path: string, info: TextureInfo, p: Platform) returns (ok: bool, calls: seq<GlCall>)
      requires PlatformValid(p)
      requires path in p.dds ==> texid == 0
      modifies this
      ensures ok <==> path in p.dds
      ensures !ok ==> calls == [] && unchanged(this)
      ensures ok ==> width == old(width) && height == old(height)
                     && texid == p.newTexture && target == Texture2D
                     && calls == DdsCalls(p.dds[path], info, p)
    {
      if path !in p.dds {
        return false, [];
      }
      var img := p.dds[path];
      target := Texture2D;
      var iformat := SrgbInternalFormat(img.format, info.srgb);
      texid := p.newTexture;
      calls := Setup(p, Texture2D, SetSampler(info, img.levels > 1, p.hasGenerateMipmap));
      var uploads := DdsMips.WalkLevels(img.format, img.width, img.height, img.levels, img.texlen);
      var levelCalls := seq(|uploads|, i requires 0 <= i < |uploads| => LevelImage(Texture2D, iformat, img.format, uploads[i]));
      assert levelCalls == DdsLevelCalls(img, iformat);
      calls := calls + levelCalls;
      if img.levels == 1 {
        calls := calls + MipmapCalls(Texture2D, p.hasGenerateMipmap);
      }
      ok := true;
    }

    /** Loads a cube map from one image laid out as a vertical cross. */
    method LoadCubeVerticalCross(path: string, info: TextureInfo, p: Platform) returns (ok: bool, calls: seq<GlCall>)
      requires PlatformValid(p)
      modifies this
      ensures path !in p.images ==> !ok && calls == [] && unchanged(this)
      ensures path in p.images ==> CrossLoaded(p.images[path], info, p, ok, calls, texid, width, height, target)
    {
      if path !in p.images {
        return false, [];
      }
      var surface := p.images[path];
      target := Target.CubeMap;
      texid := p.newTexture;
      calls := Setup(p, Target.CubeMap, CrossCubeSampler(info.mipmap, p.hasGenerateMipmap));
      width := surface.w / 3;
      height := surface.h / 4;
      var bytespp := surface.bytespp;
      HoldsUnpadded(|surface.pixels|, surface.w, surface.h, surface.pitch, bytespp);
      MulNonNegative(width, height);
      MulNonNegative(width * height, bytespp);
      var cubeface := new Byte[width * height * bytespp];
      var i := 0;
      while i < 6
        invariant 0 <= i <= 6
        invariant texid == p.newTexture && target == Target.CubeMap
        invariant width == surface.w / 3 && height == surface.h / 4
        invariant i > 0 ==> CubeFaceFormat(bytespp).Some?
        invariant |calls| == 3 + i
        invariant calls[..3] == Setup(p, Target.CubeMap, CrossCubeSampler(info.mipmap, p.hasGenerateMipmap))
        invariant forall j :: 3 <= j < 3 + i ==> CrossFaceUpload(calls[j], surface, j - 3)
      {
        var format := CubeFaceFormat(bytespp);
        if format.None? {
          return false, calls;
        }
        Cube.ExtractFace(surface.pixels, surface.w, surface.h, bytespp, i, cubeface);
        calls := calls + [TexImage(Cube.FaceTarget(i), 0, format.value, width, height, format.value, cubeface[..])];
        i := i + 1;
      }
      if info.mipmap {
        calls := calls + MipmapCalls(Target.CubeMap, p.hasGenerateMipmap);
      }
      ok := true;
    }

    /** Loads a cube map from six files, or from a vertical cross when the
        options ask for one. */
    method LoadCube(path: string, info: TextureInfo, p: Platform) returns (ok: bool, calls: seq<GlCall>)
      requires PlatformValid(p)
      modifies this
      ensures info.verticalcross && path !in p.images ==> !ok && calls == [] && unchanged(this)
      ensures info.verticalcross && path in p.images ==>
        CrossLoaded(p.images[path], info, p, ok, calls, texid, width, height, target)
      ensures !info.verticalcross ==>
        FilesLoaded(path, p, ok, calls, texid, width, height, target, old(width), old(height))
    {
      if info.verticalcross {
        ok, calls := LoadCubeVerticalCross(path, info, p);
        return;
      }
      target := Target.CubeMap;
      texid := p.newTexture;
      calls := [GenTexture(texid), BindTexture(Target.CubeMap, texid)];
      var i := 0;
      while i < 6
        invariant 0 <= i <= 6
        invariant texid == p.newTexture && target == Target.CubeMap
        invariant FacesOk(path, p, i)
        invariant i == 0 ==> width == old(width) && height == old(height)
        invariant i > 0 ==> CubeFile(path, 0) in p.images
                            && width == p.images[CubeFile(path, 0)].w && height == p.images[CubeFile(path, 0)].h
        invariant calls == [GenTexture(p.newTexture), BindTexture(Target.CubeMap, p.newTexture)] + FileFaceUploads(path, p, i)
      {
        var file := path + Cube.CubeFileSuffix(i);
        if file !in p.images {
          assert !FileFaceOk(path, p, i);
          return false, calls;
        }
        var surface := p.images[file];
        if i != 0 && (width != surface.w || height != surface.h) {
          assert !FileFaceOk(path, p, i);
          return false, calls;
        }
        width := surface.w;
        height := surface.h;
        var format := CubeFaceFormat(surface.bytespp);
        if format.None? {
          assert !FileFaceOk(path, p, i);
          return false, calls;
        }
        calls := calls + [TexImage(Cube.FaceTarget(i), 0, format.value, surface.w, surface.h, format.value, surface.pixels)];
        i := i + 1;
      }
      calls := calls + [Sampler(Target.CubeMap, FileCubeSampler())];
      ok := true;
    }

    /** The 2D path of a load, from the surface on: correction to powers of
        two, the size tier, the stored sides, and the upload. */
    method LoadSurface(s: Surface, info: TextureInfo, p: Platform) returns (calls: seq<GlCall>)
      requires PlatformValid(p) && SurfaceValid(s) && ResampleSafe(s, info.maxsize, p)
      modifies this
      ensures Loaded2D(s, info, p, calls, texid, width, height, target)
    {
      var pixelsu, pitchu, w, h := UpsampleToPot(s, p);
      var pixels, pitch, wd, hd := ShrinkToTier(pixelsu, pitchu, w, h, s.bytespp, info.maxsize);
      TierSideBounds(w, info.maxsize);
      TierSideBounds(h, info.maxsize);
      StagesUpload(s, info, p, pixelsu, pitchu, w, h, pixels, wd, hd);
      width := wd;
      height := hd;
      target := Texture2D;
      texid := p.newTexture;
      calls := Setup(p, Texture2D, SetSampler(info, false, p.hasGenerateMipmap));
      var fmt := GetTextureFormat(s.bytespp, info.compress, info.srgb, s.w, s.h, p.apple);
      calls := calls + [TexImage(Texture2D, 0, fmt.internal, wd, hd, fmt.format, pixels)];
      calls := calls + MipmapCalls(Texture2D, p.hasGenerateMipmap);
    }

    /** Loads a texture: a texture that already holds a name refuses, as
        does a load with neither pixels nor a path; a path that names a DDS
        file loads that; cube maps go to the cube loaders; everything else
        is a 2D image. */
    method Load(path: string, info: TextureInfo, p: Platform) returns (ok: bool, calls: seq<GlCall>)
      requires PlatformValid(p)
      requires !info.cube && info.data.Some? ==> SurfaceValid(DataSurface(info))
      requires PastDds(path, info, p) && !info.cube && SurfaceFor(path, info, p).Some? ==>
        ResampleSafe(SurfaceFor(path, info, p).value, info.maxsize, p)
      modifies this
      ensures old(texid) != 0 ==> !ok && calls == [] && unchanged(this)
      ensures old(texid) == 0 && info.data.None? && path == [] ==> !ok && calls == [] && unchanged(this)
      ensures old(texid) == 0 && info.data.None? && path != [] && path in p.dds ==>
        ok && calls == DdsCalls(p.dds[path], info, p) && texid == p.newTexture && target == Texture2D
        && width == old(width) && height == old(height)
      ensures old(texid) == 0 && PastDds(path, info, p) && info.cube && info.verticalcross ==>
        if path in p.images then CrossLoaded(p.images[path], info, p, ok, calls, texid, width, height, target)
        else !ok && calls == [] && unchanged(this)
      ensures old(texid) == 0 && PastDds(path, info, p) && info.cube && !info.verticalcross ==>
        FilesLoaded(path, p, ok, calls, texid, width, height, target, old(width), old(height))
      ensures old(texid) == 0 && PastDds(path, info, p) && !info.cube ==>
        if SurfaceFor(path, info, p).Some? then ok && Loaded2D(SurfaceFor(path, info, p).value, info, p, calls, texid, width, height, target)
        else !ok && calls == [] && unchanged(this)
    {
      if texid != 0 {
        return false, [];
      }
      if info.data.None? && path == [] {
        return false, [];
      }
      if info.data.None? {
        ok, calls := LoadDDS(path, info, p);
        if ok {
          return;
        }
      }
      if info.cube {
        ok, calls := LoadCube(path, info, p);
        return;
      }
      var surface := SurfaceFor(path, info, p);
      if surface.None? {
        return false, [];
      }
      calls := LoadSurface(surface.value, info, p);
      ok := true;
    }
  }

  /** Whether a load gets past the DDS attempt: it brings its own pixels, or
      its path is not a DDS file. */
  predicate PastDds(path: string, info: TextureInfo, p: Platform)
  {
    info.data.Some? || (path != [] && path !in p.dds)
  }

  /** A six-file cube load that fails keeps its texture name, so the next
      load of the same texture object is refused as a double load. */
  method RetryAfterFailedCube(t: Texture, path: string, info: TextureInfo, p: Platform) returns (first: bool, second: bool)
    requires PlatformValid(p)
    requires !info.verticalcross
    requires !info.cube && info.data.Some? ==> SurfaceValid(DataSurface(info))
    requires PastDds(path, info, p) && !info.cube && SurfaceFor(path, info, p).Some? ==>
      ResampleSafe(SurfaceFor(path, info, p).value, info.maxsize, p)
    modifies t
    ensures !FacesOk(path, p, 6) ==> !first && !second
  {
    var calls;
    first, calls := t.LoadCube(path, info, p);
    second, calls := t.Load(path, info, p);
  }
}
