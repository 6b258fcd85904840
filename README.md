# Texture and shader loading, modelled in Dafny

This project models the texture pipeline and the shader object of a C++
OpenGL renderer (`src/graphics/texture.cpp` and `src/graphics/shader.cpp`).

**Textures.** A texture is loaded from a decoded image or from a
DirectDraw Surface (DDS) file:

- A side that is not a power of two is rounded up by bilinear upsampling when the driver cannot take such textures.
- An oversized image is shrunk by box averaging to a SMALL or MEDIUM tier.
- The OpenGL internal and pixel formats are chosen from the bytes per pixel.
- The sampler parameters are chosen from the texture options.
- Cube maps come either from one image laid out as a vertical cross or from six files.
- A DDS file brings its own mipmap chain, uploaded level by level, with an optional remap to the sRGB formats.

**Shaders.** A shader prefixes both of its sources with `#version 120` and
one `#define` line per define, then compiles and links them. It keeps a
registry of uniform locations addressed by small ids. When a build fails,
both sources are printed as numbered listings.

**The outside world is a value.** SDL's decoded images, the DDS reader's
results, the driver's capabilities and the names it hands out are a
`Textures.Platform` or a `Shaders.Driver`. The OpenGL calls a texture load
makes are returned in order as a sequence of `Textures.GlCall`s.

| module | file | models |
|---|---|---|
| `Base` | base.dfy | bytes, `Option`, `Min`/`Max` |
| `GlEnums` | gl_enums.dfy | the OpenGL pixel formats, targets, wrap modes and filters used |
| `PowerOfTwo` | power_of_two.dfy | `IsPowerOfTwo` and the round-up loop |
| `Resample` | resample.dfy | the two resamplers on byte arrays |
| `TextureFormat` | texture_format.dfy | format choice, sampler choice, the sRGB remap |
| `DdsMips` | dds_mips.dfy | the DDS mipmap walk |
| `CubeMap` | cube_map.dfy | face tables and vertical-cross extraction |
| `Textures` | textures.dfy | the `Texture` class and its loaders |
| `ShaderText` | shader_text.dfy | line reading, numbered listings, the define prefix |
| `Shaders` | shaders.dfy | the `Shader` class and its uniform registry |

**Quirks kept as written.** Several behaviours of the code are modelled as
they are and stated in contracts:

- **The bilinear upsampler reads one pixel past the image.** It reads one pixel right of and one row below every sample, even at the last column and row, where the weight is 0 (`Resample.UpsampleReadable`, `Resample.UpsampleReadsPastImage`).
- **The format choice uses the surface's original sides.** The choice of compression looks at the sides from before any resampling (`Textures.Texture.LoadSurface`).
- **Cross extraction ignores the pitch.** The vertical-cross extraction addresses rows by `width * bytes per pixel`, not by the surface pitch (`CubeMap.CrossIgnoresPitch`).
- **A DDS load leaves the sides alone.** It never stores the texture's width and height (`Textures.Texture.LoadDDS`).
- **A failed cube load keeps its texture name.** The name is taken before any face is read, so the next load of the same object is refused as a double load (`Textures.RetryAfterFailedCube`).

## Model

| member | source | states |
|---|---|---|
| PowerOfTwo.IsPowerOfTwoExact | src/graphics/texture.cpp:37-40 | the bit test `x != 0 && (x & (x-1)) == 0` holds exactly when x is 2^k |
| PowerOfTwo.BitAndSelf | src/graphics/texture.cpp:39 | bitwise and of a number with itself is the number, used for the bit test |
| PowerOfTwo.Pow2Even | src/graphics/texture.cpp:39 | every power of two above 1 is even, so halving keeps the bit test |
| PowerOfTwo.IsPow2Double | src/graphics/texture.cpp:37-40 | doubling preserves and reflects being a power of two |
| PowerOfTwo.RoundUpToPowerOfTwo | src/graphics/texture.cpp:396-398 | the doubling loop from 1 ends at the next power of two at or above the side |
| PowerOfTwo.NextPow2IsLeast | src/graphics/texture.cpp:397-398 | the rounded side is a power of two, at least the side, and at most any power of two at or above it |
| PowerOfTwo.NextPow2Fixed | src/graphics/texture.cpp:392-398 | rounding leaves a positive side unchanged exactly when it already is a power of two |
| PowerOfTwo.Pow2Monotone | src/graphics/texture.cpp:397 | the doubling sequence never decreases |
| PowerOfTwo.Pow2Gap | src/graphics/texture.cpp:397 | two distinct powers of two are at least a factor 2 apart |
| Resample.SampleDownAvg | src/graphics/texture.cpp:46-86 | with exact scale factors and 1 to 4 bytes per pixel (the dispatcher at 132-171 accepts nothing else), every destination channel is the truncated average of its scalex x scaley source block, and every byte off the image (row padding, later rows) is unchanged |
| Resample.SampleDownRow | src/graphics/texture.cpp:64-85 | one destination row is filled with block averages and no byte outside that row's pixels changes |
| Resample.SampleDownPixel | src/graphics/texture.cpp:68-83 | one destination pixel gets its block averages and no other byte changes |
| Resample.AccumulateBlock | src/graphics/texture.cpp:71-81 | the accumulators hold the per-channel sums of the source block |
| Resample.StoreAverage | src/graphics/texture.cpp:82-83 | each channel written is its sum divided by scalex*scaley; the other bytes are unchanged |
| Resample.BoxAverageWithin | src/graphics/texture.cpp:73-83 | a block average lies between any lower and upper bound of the block's samples |
| Resample.BoxAverageIsByte | src/graphics/texture.cpp:83 | a block average always fits in a byte |
| Resample.BoxAverageUnitScale | src/graphics/texture.cpp:57-83 | at scale 1 x 1 the average is the source sample itself |
| Resample.RowSumRange | src/graphics/texture.cpp:75-79 | a row of n samples within [lo, hi] sums to within [lo*n, hi*n] |
| Resample.BlockSumRange | src/graphics/texture.cpp:73-81 | a block of samples within [lo, hi] sums to within lo and hi times the block size |
| Resample.SampleUpBilin | src/graphics/texture.cpp:92-130 | with dst at least src per axis and 1 to 4 bytes per pixel (the dispatcher at 173-212 accepts nothing else), every destination channel is the 16.16 fixed-point bilinear blend of its 2 x 2 neighbourhood, and every byte off the image (row padding, later rows) is unchanged |
| Resample.SampleUpRow | src/graphics/texture.cpp:107-128 | one destination row gets bilinear blends and no byte outside that row's pixels changes |
| Resample.SampleUpPixel | src/graphics/texture.cpp:114-127 | one destination pixel gets its blends and no other byte changes |
| Resample.BlendPixel | src/graphics/texture.cpp:119-127 | each channel is the blend of the two rows read at `sp0` and `sp0 + pitch`; the other bytes are unchanged |
| Resample.LerpWithin | src/graphics/texture.cpp:123-125 | interpolating with weights that sum to 65536 stays between the two inputs |
| Resample.BlendWithin | src/graphics/texture.cpp:123-125 | an output channel lies within the minimum and maximum of the 2 x 2 neighbourhood it reads |
| Resample.BlendIsByte | src/graphics/texture.cpp:125-126 | an output channel always fits in a byte |
| Resample.SampledIndexBound | src/graphics/texture.cpp:105-113 | the sampled source row and column never pass the last one |
| Resample.UpsampleFitsIn32Bits | src/graphics/texture.cpp:105-125 | for sides below 65536, the shifted sides, the positions and the weighted sums fit in 32 bits |
| Resample.UpsampleReadsPastImage | src/graphics/texture.cpp:119-124 | on a 3 x 3 image upsampled to 4 x 4, the last row's result depends on the byte after the image |
| Resample.NeighbourhoodInside | src/graphics/texture.cpp:119-124 | under the readability condition, the whole 2 x 2 neighbourhood read lies in the buffer |
| Resample.PackedHolds | src/graphics/texture.cpp:402-409 | a buffer of w*h*bpp bytes with pitch w*bpp holds a w x h image |
| Resample.HoldsUnpadded | src/graphics/texture.cpp:594-611 | an image that fits with its pitch also fits when rows are taken `width * bpp` apart |
| Resample.AtInside | src/graphics/texture.cpp:66-70 | every pixel channel of an image lies inside its buffer |
| Resample.PixelNotOffImage | src/graphics/texture.cpp:66 | no byte of a pixel counts as off the image, so the frame never covers a byte the resamplers write |
| Resample.OffImageStep | src/graphics/texture.cpp:66 | a byte off an image of one more row lies outside the pixels of that last row |
| Resample.RowOf | src/graphics/texture.cpp:66 | an offset within a row's first pitch bytes belongs to that row |
| Resample.DownsampleKeepsPadding | src/graphics/texture.cpp:64-85 | averaging a 2 x 4 image into one pixel at pitch 2 leaves the padding byte as it was |
| Resample.AtBefore | src/graphics/texture.cpp:82 | the destination is written in increasing byte order |
| TextureFormat.GetTextureFormat | src/graphics/texture.cpp:214-258 | compression exactly when asked and a side exceeds 512; sRGB exactly when asked and the pixel has 3, 4 or an unknown number of bytes; the channels match the bytes per pixel (3 when unknown); BGR order exactly on Apple for those same cases; the internal format is never an S3TC variant nor in BGR order |
| TextureFormat.FormatClassDetermines | src/graphics/texture.cpp:214-258 | channel count, compression, sRGB encoding, BGR order and S3TC variant together name exactly one format |
| TextureFormat.GetTextureFormatUnique | src/graphics/texture.cpp:214-258 | any pair of formats meeting the choice's contract is the choice, so the contract fixes the generic format the source returns |
| TextureFormat.FormatIgnoresOptions | src/graphics/texture.cpp:224-257 | the pixel format depends only on the bytes per pixel and the platform |
| TextureFormat.CubeFaceFormat | src/graphics/texture.cpp:519-538 | a cube face has a format exactly for 1 to 4 bytes per pixel, with that many channels, uncompressed, linear, RGB order |
| TextureFormat.CubeFaceFormatAgrees | src/graphics/texture.cpp:671-690 | a cube face's format is the one the 2D path picks with compression and sRGB off, off Apple |
| TextureFormat.SetSampler | src/graphics/texture.cpp:271-315 | wrap from the repeat flags; a mipmap minifying filter exactly with mipmaps; nearest filters exactly when asked; automatic mipmap generation only for mipmapped textures without their own levels on a driver without glGenerateMipmap; anisotropy exactly when above 1 |
| TextureFormat.CrossCubeSampler | src/graphics/texture.cpp:497-508 | the cross sampler clamps all three axes, filters linearly, and adds mipmap filtering and automatic generation as the options and driver say |
| TextureFormat.FileCubeSampler | src/graphics/texture.cpp:717-721 | the six-file sampler clamps all three axes and filters linearly, without mipmaps |
| TextureFormat.FileCubeSamplerIsCrossWithoutMipmaps | src/graphics/texture.cpp:717-721 | the six-file sampler is the cross sampler without mipmaps |
| TextureFormat.SrgbInternalFormat | src/graphics/texture.cpp:766-780 | the remap changes the format exactly when sRGB is asked and the format is BGR, BGRA or DXT1/3/5, into an sRGB format in RGB order with the same channels, compression and DXT variant |
| TextureFormat.SrgbCounterpartUnique | src/graphics/texture.cpp:766-780 | each of those formats has exactly one such counterpart, and the remap returns it: BGR to SRGB8, BGRA to SRGB8_ALPHA8, DXTn to sRGB DXTn |
| TextureFormat.SrgbInternalFormatIdempotent | src/graphics/texture.cpp:766-780 | remapping twice is remapping once |
| TextureFormat.SrgbInternalFormatInjective | src/graphics/texture.cpp:766-780 | distinct linear formats stay distinct after the remap |
| DdsMips.Half | src/graphics/texture.cpp:812-813 | the next level's side is at least 1 and never larger |
| DdsMips.LevelDimClosed | src/graphics/texture.cpp:812-813 | level i has side max(1, side / 2^i) |
| DdsMips.LevelDimShrinks | src/graphics/texture.cpp:812-813 | level sides never grow and never reach 0 |
| DdsMips.LevelOffsetMonotone | src/graphics/texture.cpp:811 | a level starts at or after the end of every earlier level |
| DdsMips.BlockLevelAtLeastOneBlock | src/graphics/texture.cpp:806 | a block-compressed level takes at least one block, however small |
| DdsMips.Chain | src/graphics/texture.cpp:796-814 | the chain of the first n levels has n uploads |
| DdsMips.ChainAt | src/graphics/texture.cpp:796-814 | upload i of the chain is level i |
| DdsMips.WalkStep | src/graphics/texture.cpp:796-814 | one iteration takes the walk's state from level i to level i+1 |
| DdsMips.WalkLevels | src/graphics/texture.cpp:791-814 | the walk makes one upload per level, with the halved sides, the running offset and the raster or block length |
| DdsMips.ChainIsContiguous | src/graphics/texture.cpp:791-811 | level 0 starts at offset 0 and each later level starts where the one before ends |
| CubeMap.FaceTargetsDistinct | src/graphics/texture.cpp:544-579 | the six faces go to six distinct targets |
| CubeMap.CrossOffsetIsCell | src/graphics/texture.cpp:544-579 | each face's offset is its cell of the 3 x 4 grid times the face size |
| CubeMap.SourceInCell | src/graphics/texture.cpp:586-615 | every source pixel a face reads lies in that face's cell, inside the image |
| CubeMap.FacesDisjoint | src/graphics/texture.cpp:586-615 | two different faces never read the same source pixel |
| CubeMap.NegativeZRotated | src/graphics/texture.cpp:586-615 | negative Z reads its cell rotated by 180 degrees; every other face is a straight crop |
| CubeMap.CrossIgnoresPitch | src/graphics/texture.cpp:594-609 | on a padded surface (3 x 4 pixels, pitch 4) positive Z reads the byte of negative X |
| CubeMap.CrossIndexIsAt | src/graphics/texture.cpp:594-609 | the source index expression is the address of the face's source pixel with rows `w * bytespp` apart |
| CubeMap.CopyFacePixel | src/graphics/texture.cpp:592-597 | every channel of one face pixel is copied from its source pixel; earlier bytes are untouched |
| CubeMap.CopyFaceRow | src/graphics/texture.cpp:590-613 | one face row is copied from its source row |
| CubeMap.ExtractFace | src/graphics/texture.cpp:586-615 | the face buffer holds every pixel of the face's cell, rotated for negative Z |
| Textures.TierSideBounds | src/graphics/texture.cpp:414-427 | a tier never grows a side and never empties it; FULL keeps it |
| Textures.PowerOfTwoTierDivides | src/graphics/texture.cpp:418-440 | a power-of-two side is divided exactly by its tier, and stays a power of two |
| Textures.PotSideLeast | src/graphics/texture.cpp:392-412 | a corrected side is the least power of two at or above the original, and passes the bit test |
| Textures.CorrectedSidesDivide | src/graphics/texture.cpp:392-440 | after correction the tier division is exact, as the downsampler demands |
| Textures.FinalSideExamples | src/graphics/texture.cpp:392-444 | 100 x 50 without NPOT support at SMALL is stored as 128 x 64; 300 with NPOT support at MEDIUM becomes 150 |
| Textures.PotSideCovers | src/graphics/texture.cpp:397-398 | the doubling loops reach at least the original side and never give 0 |
| Textures.UpsampleCorrected | src/graphics/texture.cpp:394-412 | the corrected image has the next power-of-two sides, a tight pitch, and each channel of each pixel is the bilinear sample of the original, read past its end |
| Textures.UpsampleToPot | src/graphics/texture.cpp:390-412 | the image is upsampled to power-of-two sides exactly when correction is needed, else passed through |
| Textures.ShrinkToTier | src/graphics/texture.cpp:414-440 | the image is box-averaged to its tier's sides exactly when a side shrinks, else passed through |
| Textures.DdsLevelCalls | src/graphics/texture.cpp:796-814 | one upload per level |
| Textures.DdsCalls | src/graphics/texture.cpp:782-818 | name, bind, sampler, the level uploads, and a mipmap generation only for a single-level file |
| Textures.FileFaceUploads | src/graphics/texture.cpp:651-715 | one upload per face read |
| Textures.Texture.constructor | src/graphics/texture.cpp:317-320 | a new texture holds no name (the member defaults it starts from are declared in texture.h) |
| Textures.Texture.Unload | src/graphics/texture.cpp:473-478 | the name is deleted when held and cleared; sides and target stay |
| Textures.Texture.LoadDDS | src/graphics/texture.cpp:728-821 | succeeds exactly for a DDS file; then takes a name, makes the DDS calls and leaves width and height unchanged; otherwise changes nothing |
| Textures.Texture.LoadCubeVerticalCross | src/graphics/texture.cpp:480-627 | a missing image changes nothing; otherwise the name and face sides are set, and the load succeeds exactly for 1 to 4 bytes per pixel, uploading the six extracted faces in target order |
| Textures.Texture.LoadCube | src/graphics/texture.cpp:629-726 | the cross layout goes to the cross loader; six files succeed exactly when every face decodes, matches face 0's sides and has a format; on failure the name stays taken and the faces before the failing one are uploaded |
| Textures.Texture.LoadSurface | src/graphics/texture.cpp:384-470 | the stored sides are the corrected and tiered ones; the format is chosen from the original sides; the uploaded pixels are the surface's own when nothing is resampled, the bilinear upsampling when only the power-of-two correction runs, the box average when only the size tier shrinks, and the box average of the bilinear upsampling when both run |
| Textures.StagesUpload | src/graphics/texture.cpp:390-440 | the correction followed by the tier, as their contracts leave the bytes, upload what `UploadedPixels` describes in each of the four cases |
| Textures.Texture.Load | src/graphics/texture.cpp:327-471 | a double load or a load with neither pixels nor a path fails and changes nothing; a DDS file takes the DDS path; cube maps take the cube loaders; every other image takes the 2D path |
| Textures.RetryAfterFailedCube | src/graphics/texture.cpp:644-658 | after a six-file cube load fails, loading the same texture object again is refused |
| ShaderText.StreamLines | src/graphics/shader.cpp:39-45 | the lines `getline` reads, counting the final read that fails, are never empty |
| ShaderText.NoNewlineBeforeFirst | src/graphics/shader.cpp:45 | nothing before the first newline is a newline |
| ShaderText.StreamLinesAtNewline | src/graphics/shader.cpp:41-45 | text with a newline reads as the part before it, then the lines of the rest |
| ShaderText.StreamLinesJoin | src/graphics/shader.cpp:39-45 | the lines read, joined with newlines, give back the text, with a newline added when it did not end in one |
| ShaderText.StreamLinesHaveNoNewline | src/graphics/shader.cpp:45 | no line read contains a newline |
| ShaderText.StreamLinesCons | src/graphics/shader.cpp:45 | a line followed by a newline is read as that line, then the rest |
| ShaderText.GetLineTakesFirst | src/graphics/shader.cpp:41-45 | each read takes the first remaining line |
| ShaderText.NatToStringRoundTrip | src/graphics/shader.cpp:46-48 | the counter's decimal form reads back as the counter |
| ShaderText.CounterWidth | src/graphics/shader.cpp:48-51 | for every counter up to 10000 the digits and padding take exactly 5 characters |
| ShaderText.NumberedAppend | src/graphics/shader.cpp:41-52 | each new line is printed with the next counter, one more than the lines before it |
| ShaderText.ListedLines | src/graphics/shader.cpp:41 | a listing prints at most 10000 lines |
| ShaderText.PrintLine | src/graphics/shader.cpp:46-52 | one line is printed as counter, padding, `": "`, the line and a newline |
| ShaderText.ListingStep | src/graphics/shader.cpp:41-52 | one round of the loop keeps the listing's state |
| ShaderText.PrintWithLineNumbers | src/graphics/shader.cpp:37-54 | the output is the text's lines, numbered from 1, stopping after 10000 or at the failing read |
| ShaderText.BuildPrefix | src/graphics/shader.cpp:110-116 | the prefix is `#version 120` and then one `#define` line per define, in order |
| ShaderText.DirectiveLines | src/graphics/shader.cpp:113-116 | one directive line per define |
| ShaderText.DefineLinesRead | src/graphics/shader.cpp:113-118 | with single-line defines, the define lines before a text read as one line per define, then the text's lines |
| ShaderText.PrefixedLines | src/graphics/shader.cpp:110-118 | a prefixed source reads as the version line, one line per define, then the original lines, so the listing numbers original line n as n + defines + 1 |
| Shaders.LocationsAt | src/graphics/shader.cpp:195-201 | uniform id i of a registry filled from a list of names is the location of the i-th name |
| Shaders.Live | src/graphics/shader.cpp:73-89 | only handles that name an object are deleted |
| Shaders.LiveExactly | src/graphics/shader.cpp:73-89 | an unload deletes nothing exactly when no handle is held, and deletes only handles it held |
| Shaders.Shader.constructor | src/graphics/shader.cpp:56-62 | a new shader holds no handles and an empty registry |
| Shaders.Shader.Unload | src/graphics/shader.cpp:69-90 | the registry is emptied, all three handles are zeroed, and the held ones are deleted: program, then vertex, then fragment |
| Shaders.Shader.RegisterUniform | src/graphics/shader.cpp:218-223 | exactly one location is appended and its id is the old registry length |
| Shaders.Shader.SetUniform | src/graphics/shader.cpp:225-263 | for an id in range, the driver is called and true returned exactly when the stored location is at least 0; the registry is not changed |
| Shaders.Shader.CacheUniforms | src/graphics/shader.cpp:195-201 | the registry holds the location of each requested uniform, in request order |
| Shaders.Shader.Load | src/graphics/shader.cpp:92-205 | unloads first and prefixes both sources; when both compile and link, the new handles and one location per uniform are kept; otherwise a report with both listings is printed, everything is unloaded, and the result is false; the result is always whether a program is loaded |
| Shaders.SetAfterLoad | src/graphics/shader.cpp:195-263 | after a successful load, setting uniform i succeeds exactly when the driver places the i-th requested name |
| Shaders.UnloadTwice | src/graphics/shader.cpp:69-90 | a second unload deletes nothing |

## Left out

- **OpenGL and SDL are not executed.** `glGenTextures`, `glBindTexture`, `glTexParameteri`, `glTexImage2D`, `glCompressedTexImage2D`, `glGenerateMipmap`, `IMG_Load` and `SDL_CreateRGBSurfaceFrom` are not run. They become the fields of `Textures.Platform`, and the calls a load makes are returned as `Textures.GlCall` values. Shader creation, compilation, linking and uniform location queries become the fields of `Shaders.Driver`.
- **The extra calls in `GenerateMipmap` (texture.cpp:260-269) are not recorded.** Its `glDisableVertexAttribArray` calls are left out; only `GenerateMipmap(target)` is recorded, and only when the driver offers it.
- **`CheckForOpenGLErrors`, error messages, `IMG_GetError` and `SDL_FreeSurface` are left out.** They are diagnostics and memory release. The shader failure report is modelled; the shader and program info logs (`PrintShaderLog`, `PrintProgramLog`) are not.
- **DDS file I/O and parsing are left out.** The file read and the magic test in `LoadDDS` (texture.cpp:730-759) are replaced by the `Platform.dds` map, which gives the format, sides, level count and data length that `ReadDDS` would return. `ReadDDS` and `IsDDS` are not part of this model.
- **DDS headers are assumed to have positive sides.** `Textures.PlatformValid` requires every entry of `Platform.dds` to have a width and height of at least 1, and `Texture.LoadDDS` and `Texture.Load` inherit that. The model therefore says nothing about a zero-sided DDS file. The source would divide by zero on one, in `16 * texlen / (width * height)` at texture.cpp:792. Whether `ReadDDS` can return such a header depends on code that is not part of this model.
- **Reading shader files is left out.** `Utils::LoadFileIntoString` is not part of this model. Files come from `Driver.files`, and a missing file reads as empty text.
- **The texture-unit sampler loop in `Shader::Load` (shader.cpp:180-193) is left out.** It sets `tu<i>_2D`, `tu<i>_2DRect` and `tu<i>_cube` to unit i, which only reaches the driver. `glUseProgramObjectARB` and `Shader::Enable` are driver calls and are left out too.
- **The five `SetUniform*` setters are collapsed into one.** `Shaders.Shader.SetUniform` takes a `UniformValue` with one variant per setter. Float values are carried as `real` and never computed with.
- **Anisotropy is passed through unconverted.** It is recorded as the integer option; the float conversion in `glTexParameterf` is left out.
- **Fixed-width overflow is not modelled for the byte counts.** `DdsMips.BlockLength`: `16 * texlen` and the level lengths are unbounded integers, so 32-bit wrap-around of `unsigned` is not modelled; DDS data lengths are far below that range. The fixed-point upsampler is proved free of 32-bit overflow (`Resample.UpsampleFitsIn32Bits`) for sides below 65536, which its `srcWidth < One` precondition requires.
- **Platform `#ifdef`s are booleans.** `__APPLE__` is `Platform.apple`. The `SDL_BYTEORDER` masks only affect how SDL wraps caller data, which the model takes as given bytes.
- **The `TextureInfo` defaults and the `Texture` member defaults are not modelled.** Their declarations (texture.h) are not part of this model. The option record takes whatever values the caller supplies. A new `Texture` starts with a zero name, zero sides and a 2D target, as the constructor at texture.cpp:317-320 leaves the members texture.h initialises.
- **The resamplers' preconditions come from `Texture::Load`'s callers.** The model demands 1 to 4 bytes per pixel, exact tier divisibility and, for upsampling, readable memory past the image (`Textures.ResampleSafe`). The C++ asserts the first two and silently reads past the buffer for the third. In the same way, `Shaders.Shader.Load` and `Shaders.SetAfterLoad` require both shader files to have non-empty text, as the asserts at shader.cpp:107-108 demand, so a missing shader file, which reads as empty text, is outside what the model describes.
- **The upsampled-size assertion is a precondition.** `Textures.ResampleSafe` requires the corrected sides to be at most 4096, as the asserts at texture.cpp:399-400 demand.
- **Destructors are left out.** `Texture::~Texture` and `Shader::~Shader` only call `Unload`, which is modelled.
