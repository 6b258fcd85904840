/** The OpenGL enumerants the texture code chooses between, as plain datatypes.
    Only their identity matters to the model, not their numeric values. */
module GlEnums {

  /** Internal and external pixel formats (GL_LUMINANCE, GL_SRGB8, the S3TC
      block-compression formats, ...). */
  datatype PixelFormat =
    | Luminance | LuminanceAlpha | Rgb | Rgba | Bgr | Bgra
    | Srgb8 | Srgb8Alpha8
    | CompressedLuminance | CompressedLuminanceAlpha
    | CompressedRgb | CompressedRgba | CompressedSrgb | CompressedSrgbAlpha
    | RgbaS3tcDxt1 | RgbaS3tcDxt3 | RgbaS3tcDxt5
    | SrgbAlphaS3tcDxt1 | SrgbAlphaS3tcDxt3 | SrgbAlphaS3tcDxt5

  /** Texture targets: the two kinds of texture object and the six cube-map faces. */
  datatype Target =
    | Texture2D | CubeMap
    | CubeNegativeX | CubePositiveX | CubeNegativeY | CubePositiveY | CubeNegativeZ | CubePositiveZ

  datatype Wrap = Repeat | ClampToEdge

  datatype Filter = Nearest | Linear | NearestMipmapNearest | LinearMipmapLinear
}
