/** The texture loader's pure choices: which OpenGL internal and external
    pixel format an image is uploaded with, which sampler parameters a texture
    gets, and how a DirectDraw Surface format is moved to its sRGB
    counterpart. */
module TextureFormat {
  import opened Base
  import opened GlEnums

  /** Application cap on texture size (TextureInfo::maxsize). */
  datatype SizeTier = Small | Medium | Full

  /** The options a texture is created with. `data` holds caller-supplied
      pixels (the source's `info.data`, a null pointer when None); `width`,
      `height` and `bytespp` describe them. */
  datatype TextureInfo = TextureInfo(
    data: Option<seq<Byte>>,
    width: nat,
    height: nat,
    bytespp: nat,
    maxsize: SizeTier,
    cube: bool,
    verticalcross: bool,
    mipmap: bool,
    repeatu: bool,
    repeatv: bool,
    nearest: bool,
    compress: bool,
    srgb: bool,
    anisotropy: int)

  /** The internal and external format of one upload. */
  datatype FormatPair = FormatPair(internal: PixelFormat, format: PixelFormat)

  /** Number of colour channels a pixel format stores. */
  function Channels(f: PixelFormat): nat
  {
    match f
    case Luminance | CompressedLuminance => 1
    case LuminanceAlpha | CompressedLuminanceAlpha => 2
    case Rgb | Bgr | Srgb8 | CompressedRgb | CompressedSrgb => 3
    case _ => 4
    // Rgba, Bgra, Srgb8Alpha8, CompressedRgba, CompressedSrgbAlpha and the S3TC formats
  }

  /** Formats the driver stores compressed. */
  predicate IsCompressed(f: PixelFormat)
  {
    f.CompressedLuminance? || f.CompressedLuminanceAlpha? || f.CompressedRgb? || f.CompressedRgba?
    || f.CompressedSrgb? || f.CompressedSrgbAlpha?
    || f.RgbaS3tcDxt1? || f.RgbaS3tcDxt3? || f.RgbaS3tcDxt5?
    || f.SrgbAlphaS3tcDxt1? || f.SrgbAlphaS3tcDxt3? || f.SrgbAlphaS3tcDxt5?
  }

  /** Formats whose colour channels are sRGB-encoded. */
  predicate IsSrgb(f: PixelFormat)
  {
    f.Srgb8? || f.Srgb8Alpha8? || f.CompressedSrgb? || f.CompressedSrgbAlpha?
    || f.SrgbAlphaS3tcDxt1? || f.SrgbAlphaS3tcDxt3? || f.SrgbAlphaS3tcDxt5?
  }

  /** Formats whose colour channels come in blue-green-red order. */
  predicate IsBgrOrder(f: PixelFormat)
  {
    f.Bgr? || f.Bgra?
  }

  /** The S3TC (DXT) compression variant of a format, linear or sRGB alike:
      1, 3 or 5; 0 for a format that is not S3TC. */
  function S3tcVariant(f: PixelFormat): nat
  {
    match f
    case RgbaS3tcDxt1 | SrgbAlphaS3tcDxt1 => 1
    case RgbaS3tcDxt3 | SrgbAlphaS3tcDxt3 => 3
    case RgbaS3tcDxt5 | SrgbAlphaS3tcDxt5 => 5
    case _ => 0
  }

  /** Channel count, compression, sRGB encoding, BGR order and S3TC variant
      together name one format: a contract fixing all five fixes the format. */
  lemma {:induction false} FormatClassDetermines(f: PixelFormat, g: PixelFormat)
    requires Channels(f) == Channels(g) && IsCompressed(f) == IsCompressed(g) && IsSrgb(f) == IsSrgb(g)
    requires IsBgrOrder(f) == IsBgrOrder(g) && S3tcVariant(f) == S3tcVariant(g)
    ensures f == g
  {
  }

  /** The internal format of an image stored as colour without alpha, and
      with alpha. */
  function ColourFormat(compress: bool, srgb: bool): PixelFormat
  {
    if compress then (if srgb then CompressedSrgb else CompressedRgb)
    else (if srgb then Srgb8 else Rgb)
  }

  function ColourAlphaFormat(compress: bool, srgb: bool): PixelFormat
  {
    if compress then (if srgb then CompressedSrgbAlpha else CompressedRgba)
    else (if srgb then Srgb8Alpha8 else Rgba)
  }

  /** The formats an image of `bpp` bytes per pixel and `w` x `h` pixels is
      uploaded with. `apple` stands for the build platform, where 3- and
      4-byte pixels come in BGR order. An image is compressed only when the
      options ask for it and one side exceeds 512; sRGB only touches colour
      images; a byte count outside 1..4 is treated as RGB. */
  function GetTextureFormat(bpp: nat, compress: bool, srgb: bool, w: nat, h: nat, apple: bool): (r: FormatPair)
    ensures IsCompressed(r.internal) <==> compress && (w > 512 || h > 512)
    ensures IsSrgb(r.internal) <==> srgb && bpp != 1 && bpp != 2
    ensures !IsCompressed(r.format) && !IsSrgb(r.format)
    ensures Channels(r.internal) == Channels(r.format) == (if 1 <= bpp <= 4 then bpp else 3)
    ensures IsBgrOrder(r.format) <==> apple && bpp != 1 && bpp != 2
    ensures !IsBgrOrder(r.internal) && S3tcVariant(r.internal) == 0 && S3tcVariant(r.format) == 0
  {
    var compressed := compress && (w > 512 || h > 512);
    if bpp == 1 then
      FormatPair(if compressed then CompressedLuminance else Luminance, Luminance)
    else if bpp == 2 then
      FormatPair(if compressed then CompressedLuminanceAlpha else LuminanceAlpha, LuminanceAlpha)
    else if bpp == 4 then
      FormatPair(ColourAlphaFormat(compressed, srgb), if apple then Bgra else Rgba)
    else
      FormatPair(ColourFormat(compressed, srgb), if apple then Bgr else Rgb)
  }

  /** The choice is the only pair of formats with the class its contract
      states: the generic format of that channel count, compression and
      encoding, never an S3TC variant or a BGR internal format. */
  lemma {:induction false} GetTextureFormatUnique(bpp: nat, compress: bool, srgb: bool, w: nat, h: nat, apple: bool, q: FormatPair)
    requires IsCompressed(q.internal) <==> compress && (w > 512 || h > 512)
    requires IsSrgb(q.internal) <==> srgb && bpp != 1 && bpp != 2
    requires !IsCompressed(q.format) && !IsSrgb(q.format)
    requires Channels(q.internal) == Channels(q.format) == (if 1 <= bpp <= 4 then bpp else 3)
    requires IsBgrOrder(q.format) <==> apple && bpp != 1 && bpp != 2
    requires !IsBgrOrder(q.internal) && S3tcVariant(q.internal) == 0 && S3tcVariant(q.format) == 0
    ensures q == GetTextureFormat(bpp, compress, srgb, w, h, apple)
  {
    var r := GetTextureFormat(bpp, compress, srgb, w, h, apple);
    FormatClassDetermines(q.internal, r.internal);
    FormatClassDetermines(q.format, r.format);
  }

  /** The external format depends on nothing but the byte count and the
      platform: not on the size, nor on the compress or sRGB options. */
  lemma {:induction false} FormatIgnoresOptions(bpp: nat, c1: bool, s1: bool, w1: nat, h1: nat, c2: bool, s2: bool, w2: nat, h2: nat, apple: bool)
    ensures GetTextureFormat(bpp, c1, s1, w1, h1, apple).format == GetTextureFormat(bpp, c2, s2, w2, h2, apple).format
  {
  }

  /** The channel layout the cube-map loaders upload with (used as both the
      internal and the external format); None for a byte count they reject. */
  function CubeFaceFormat(bpp: nat): (r: Option<PixelFormat>)
    ensures r.Some? <==> 1 <= bpp <= 4
    ensures r.Some? ==> Channels(r.value) == bpp && !IsCompressed(r.value) && !IsSrgb(r.value) && !IsBgrOrder(r.value)
  {
    if bpp == 1 then Some(Luminance)
    else if bpp == 2 then Some(LuminanceAlpha)
    else if bpp == 3 then Some(Rgb)
    else if bpp == 4 then Some(Rgba)
    else None
  }

  /** Where both are defined, the cube-map format is the format a plain
      texture would get without compression, sRGB or BGR order. */
  lemma {:induction false} CubeFaceFormatAgrees(bpp: nat, w: nat, h: nat)
    requires 1 <= bpp <= 4
    ensures CubeFaceFormat(bpp) == Some(GetTextureFormat(bpp, false, false, w, h, false).format)
    ensures CubeFaceFormat(bpp) == Some(GetTextureFormat(bpp, false, false, w, h, false).internal)
  {
  }

  /** The sampler state of a texture. `wrapR` is set only for cube maps;
      `generateMipmap` is the deprecated automatic mipmap generation flag;
      `anisotropy` is set only when more than 1 is asked for. */
  datatype SamplerParams = SamplerParams(
    wrapS: Wrap,
    wrapT: Wrap,
    wrapR: Option<Wrap>,
    minFilter: Filter,
    magFilter: Filter,
    generateMipmap: bool,
    anisotropy: Option<int>)

  predicate IsMipmapFilter(f: Filter)
  {
    f.NearestMipmapNearest? || f.LinearMipmapLinear?
  }

  predicate IsNearestFilter(f: Filter)
  {
    f.Nearest? || f.NearestMipmapNearest?
  }

  /** Sampler of a 2D texture. `hasmiplevels` says the image brings its own
      mipmap levels; `hasGenerateMipmap` says the driver offers
      glGenerateMipmap, in which case the deprecated flag is not used. */
  function SetSampler(info: TextureInfo, hasmiplevels: bool, hasGenerateMipmap: bool): (r: SamplerParams)
    ensures r.wrapS == (if info.repeatu then Repeat else ClampToEdge)
    ensures r.wrapT == (if info.repeatv then Repeat else ClampToEdge)
    ensures r.wrapR.None?
    ensures IsMipmapFilter(r.minFilter) <==> info.mipmap
    ensures IsNearestFilter(r.minFilter) <==> info.nearest
    ensures r.magFilter == (if info.nearest then Nearest else Linear)
    ensures r.generateMipmap <==> info.mipmap && !hasmiplevels && !hasGenerateMipmap
    ensures r.anisotropy.Some? <==> info.anisotropy > 1
    ensures r.anisotropy.Some? ==> r.anisotropy.value == info.anisotropy
  {
    var minFilter :=
      if info.mipmap then (if info.nearest then NearestMipmapNearest else LinearMipmapLinear)
      else (if info.nearest then Nearest else Linear);
    SamplerParams(
      if info.repeatu then Repeat else ClampToEdge,
      if info.repeatv then Repeat else ClampToEdge,
      None,
      minFilter,
      if info.nearest then Nearest else Linear,
      info.mipmap && !hasmiplevels && !hasGenerateMipmap,
      if info.anisotropy > 1 then Some(info.anisotropy) else None)
  }

  /** Sampler of a cube map assembled from a vertical cross: clamped on all
      three axes, linear, trilinear when mipmaps are asked for. */
  function CrossCubeSampler(mipmap: bool, hasGenerateMipmap: bool): (r: SamplerParams)
    ensures r.wrapS == r.wrapT == ClampToEdge && r.wrapR == Some(ClampToEdge)
    ensures r.magFilter == Linear && !IsNearestFilter(r.minFilter)
    ensures IsMipmapFilter(r.minFilter) <==> mipmap
    ensures r.generateMipmap <==> mipmap && !hasGenerateMipmap
    ensures r.anisotropy.None?
  {
    SamplerParams(ClampToEdge, ClampToEdge, Some(ClampToEdge),
                  if mipmap then LinearMipmapLinear else Linear, Linear,
                  mipmap && !hasGenerateMipmap, None)
  }

  /** Sampler of a cube map assembled from six files: clamped and linear,
      never mipmapped, whatever the options say. */
  function FileCubeSampler(): (r: SamplerParams)
    ensures r.wrapS == r.wrapT == ClampToEdge && r.wrapR == Some(ClampToEdge)
    ensures r.minFilter == r.magFilter == Linear && !r.generateMipmap && r.anisotropy.None?
  {
    SamplerParams(ClampToEdge, ClampToEdge, Some(ClampToEdge), Linear, Linear, false, None)
  }

  /** The six-file sampler is the cross sampler without mipmaps. */
  lemma {:induction false} FileCubeSamplerIsCrossWithoutMipmaps(hasGenerateMipmap: bool)
    ensures FileCubeSampler() == CrossCubeSampler(false, hasGenerateMipmap)
  {
  }

  /** The DirectDraw Surface formats with an sRGB counterpart. */
  predicate HasSrgbCounterpart(f: PixelFormat)
  {
    f.Bgr? || f.Bgra? || f.RgbaS3tcDxt1? || f.RgbaS3tcDxt3? || f.RgbaS3tcDxt5?
  }

  /** Internal format of a DirectDraw Surface image: with `srgb`, BGR and BGRA
      become SRGB8 and SRGB8_ALPHA8 and DXT1/3/5 their sRGB variants; any
      other format, and every format without `srgb`, is kept. */
  function SrgbInternalFormat(format: PixelFormat, srgb: bool): (r: PixelFormat)
    ensures r != format <==> srgb && HasSrgbCounterpart(format)
    ensures r != format ==> IsSrgb(r) && !IsSrgb(format)
    ensures Channels(r) == Channels(format) && IsCompressed(r) == IsCompressed(format)
    ensures S3tcVariant(r) == S3tcVariant(format)
    ensures r != format ==> !IsBgrOrder(r)
  {
    if !srgb then format
    else match format
      case Bgr => Srgb8
      case Bgra => Srgb8Alpha8
      case RgbaS3tcDxt1 => SrgbAlphaS3tcDxt1
      case RgbaS3tcDxt3 => SrgbAlphaS3tcDxt3
      case RgbaS3tcDxt5 => SrgbAlphaS3tcDxt5
      case _ => format
  }

  /** Each format with a counterpart has exactly one: the sRGB format of the
      same channel count, compression and S3TC variant, in RGB order. */
  lemma {:induction false} SrgbCounterpartUnique(format: PixelFormat, g: PixelFormat)
    requires HasSrgbCounterpart(format)
    requires IsSrgb(g) && !IsBgrOrder(g) && Channels(g) == Channels(format)
    requires IsCompressed(g) == IsCompressed(format) && S3tcVariant(g) == S3tcVariant(format)
    ensures g == SrgbInternalFormat(format, true)
  {
    FormatClassDetermines(g, SrgbInternalFormat(format, true));
  }

  /** Remapping twice changes nothing more: no remapped format has a
      counterpart of its own. */
  lemma {:induction false} SrgbInternalFormatIdempotent(format: PixelFormat, srgb: bool)
    ensures SrgbInternalFormat(SrgbInternalFormat(format, srgb), srgb) == SrgbInternalFormat(format, srgb)
  {
  }

  /** On formats not already sRGB the remap is one-to-one: two of them that
      remap to the same internal format were the same format. */
  lemma {:induction false} SrgbInternalFormatInjective(f1: PixelFormat, f2: PixelFormat, srgb: bool)
    requires !IsSrgb(f1) && !IsSrgb(f2)
    requires SrgbInternalFormat(f1, srgb) == SrgbInternalFormat(f2, srgb)
    ensures f1 == f2
  {
  }
}
