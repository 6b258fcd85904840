/** The mipmap chain of a DirectDraw Surface image: the size of every level,
    the number of bytes it occupies in the file's pixel data, and where it
    starts. Uncompressed BGR/BGRA levels are a plain raster; S3TC (DXT)
    levels are made of 4 x 4 pixel blocks. */
module DdsMips {
  import opened Base
  import opened GlEnums
  import PowerOfTwo
  import Resample

  /** The next level's side: half, rounded down, but never below 1. */
  function Half(n: nat): (r: nat)
    ensures r >= 1 && (n >= 1 ==> r <= n)
  {
    Max(1, n / 2)
  }

  /** The side of level `i` of a chain whose level 0 has side `d`. */
  function LevelDim(d: nat, i: nat): nat
  {
    if i == 0 then d else Half(LevelDim(d, i - 1))
  }

  /** Regrouping of a two-step quotient and remainder. */
  lemma {:induction false} Regroup(a: nat, b: nat, c: nat, q: nat, r1: nat, q2: nat, r2: nat)
    requires a == q * b + r1 && q == q2 * c + r2
    ensures a == q2 * (b * c) + (r2 * b + r1)
  {
    assert q * b == q2 * c * b + r2 * b;
  }

  lemma {:induction false} RemainderBound(b: nat, c: nat, r1: nat, r2: nat)
    requires r1 < b && r2 < c
    ensures r2 * b + r1 < b * c
  {
    Resample.MulLe(r2, c - 1, b);
    assert (c - 1) * b == b * c - b;
  }

  lemma {:induction false} DivDiv(a: nat, b: nat, c: nat)
    requires b >= 1 && c >= 1
    ensures (a / b) / c == a / (b * c)
  {
    var q: nat, r1: nat := a / b, a % b;
    var q2: nat, r2: nat := q / c, q % c;
    Regroup(a, b, c, q, r1, q2, r2);
    RemainderBound(b, c, r1, r2);
    Resample.DivUnique(a, b * c, q2, r2 * b + r1);
  }

  /** Closed form of the halving chain: level i has side max(1, d / 2^i). */
  lemma {:induction false} LevelDimClosed(d: nat, i: nat)
    requires d >= 1
    ensures LevelDim(d, i) == Max(1, d / PowerOfTwo.Pow2(i))
  {
    if i > 0 {
      LevelDimClosed(d, i - 1);
      var p := PowerOfTwo.Pow2(i - 1);
      DivDiv(d, p, 2);
      assert PowerOfTwo.Pow2(i) == p * 2;
    }
  }

  /** Levels never grow and never vanish. */
  lemma {:induction false} LevelDimShrinks(d: nat, i: nat, j: nat)
    requires d >= 1 && i <= j
    ensures 1 <= LevelDim(d, j) <= LevelDim(d, i) <= d
    decreases j
  {
    if j > 0 {
      if i < j {
        LevelDimShrinks(d, i, j - 1);
      } else {
        LevelDimShrinks(d, 0, j - 1);
      }
    }
  }

  /** Formats stored as a plain raster rather than as S3TC blocks. */
  predicate IsRaster(f: PixelFormat)
  {
    f.Bgr? || f.Bgra?
  }

  /** Bytes per 16 pixels, derived from the whole data length and the size of
      level 0; for raster formats this is 16 times the bytes per pixel, for
      block formats the bytes of one 4 x 4 block. */
  function BlockLength(texlen: nat, width: nat, height: nat): nat
    requires width >= 1 && height >= 1
  {
    16 * texlen / (width * height)
  }

  /** Bytes of one level of side `iw` x `ih`. */
  function LevelLength(format: PixelFormat, iw: nat, ih: nat, blocklen: nat): nat
  {
    if IsRaster(format) then iw * ih * blocklen / 16
    else Max(1, iw / 4) * Max(1, ih / 4) * blocklen
  }

  /** Level `i` of the chain, with its sides in pixels and its length in bytes. */
  function LengthOfLevel(format: PixelFormat, width: nat, height: nat, blocklen: nat, i: nat): nat
  {
    LevelLength(format, LevelDim(width, i), LevelDim(height, i), blocklen)
  }

  /** Where level `i` starts: the levels before it, one after another. */
  function LevelOffset(format: PixelFormat, width: nat, height: nat, blocklen: nat, i: nat): nat
  {
    if i == 0 then 0
    else LevelOffset(format, width, height, blocklen, i - 1) + LengthOfLevel(format, width, height, blocklen, i - 1)
  }

  /** Consecutive levels are packed back to back, so offsets never decrease. */
  lemma {:induction false} LevelOffsetMonotone(format: PixelFormat, width: nat, height: nat, blocklen: nat, i: nat, j: nat)
    requires i <= j
    ensures LevelOffset(format, width, height, blocklen, i) + (if i < j then LengthOfLevel(format, width, height, blocklen, i) else 0)
            <= LevelOffset(format, width, height, blocklen, j)
    decreases j
  {
    if i < j - 1 {
      LevelOffsetMonotone(format, width, height, blocklen, i, j - 1);
    }
  }

  /** A block-compressed level always occupies at least one block, however
      small it gets. */
  lemma {:induction false} BlockLevelAtLeastOneBlock(format: PixelFormat, iw: nat, ih: nat, blocklen: nat)
    requires !IsRaster(format)
    ensures LevelLength(format, iw, ih, blocklen) >= blocklen
  {
    assert Max(1, iw / 4) * Max(1, ih / 4) >= 1;
    Resample.MulGe(Max(1, iw / 4) * Max(1, ih / 4), blocklen);
  }

  /** One upload of the chain: level `level` of `w` x `h` pixels, `length`
      bytes starting at `offset` in the pixel data; `compressed` tells the
      block upload from the raster one. */
  datatype LevelUpload = LevelUpload(level: nat, w: nat, h: nat, offset: nat, length: nat, compressed: bool)

  /** The upload the chain makes for level `i`. */
  function ChainLevel(format: PixelFormat, width: nat, height: nat, blocklen: nat, i: nat): LevelUpload
  {
    LevelUpload(i, LevelDim(width, i), LevelDim(height, i),
                LevelOffset(format, width, height, blocklen, i), LengthOfLevel(format, width, height, blocklen, i),
                !IsRaster(format))
  }

  /** The uploads of the first `n` levels, in order. */
  function Chain(format: PixelFormat, width: nat, height: nat, blocklen: nat, n: nat): (r: seq<LevelUpload>)
    ensures |r| == n
  {
    if n == 0 then [] else Chain(format, width, height, blocklen, n - 1) + [ChainLevel(format, width, height, blocklen, n - 1)]
  }

  lemma {:induction false} ChainAt(format: PixelFormat, width: nat, height: nat, blocklen: nat, n: nat, i: nat)
    requires i < n
    ensures Chain(format, width, height, blocklen, n)[i] == ChainLevel(format, width, height, blocklen, i)
  {
    if i < n - 1 {
      ChainAt(format, width, height, blocklen, n - 1, i);
    }
  }

  /** The state of the walk before level `i`: the current sides, the data
      offset, and the uploads made so far. */
  predicate WalkState(format: PixelFormat, width: nat, height: nat, blocklen: nat,
                      i: nat, iw: nat, ih: nat, idata: nat, uploads: seq<LevelUpload>)
  {
    iw == LevelDim(width, i) && ih == LevelDim(height, i)
    && idata == LevelOffset(format, width, height, blocklen, i)
    && uploads == Chain(format, width, height, blocklen, i)
  }

  /** One iteration of the walk takes the state before level `i` to the state
      before level `i + 1`. */
  lemma {:induction false} WalkStep(format: PixelFormat, width: nat, height: nat, blocklen: nat,
                 i: nat, iw: nat, ih: nat, idata: nat, uploads: seq<LevelUpload>, ilen: nat, compressed: bool)
    requires WalkState(format, width, height, blocklen, i, iw, ih, idata, uploads)
    requires ilen == LevelLength(format, iw, ih, blocklen) && compressed == !IsRaster(format)
    ensures WalkState(format, width, height, blocklen, i + 1, Half(iw), Half(ih), idata + ilen,
                      uploads + [LevelUpload(i, iw, ih, idata, ilen, compressed)])
  {
  }

  /** The walk over the levels: each iteration uploads the current level,
      advances the data pointer by its length and halves both sides. */
  method WalkLevels(format: PixelFormat, width: nat, height: nat, levels: nat, texlen: nat) returns (uploads: seq<LevelUpload>)
    requires width >= 1 && height >= 1
    ensures |uploads| == levels
    ensures forall i :: 0 <= i < levels ==> uploads[i] == ChainLevel(format, width, height, BlockLength(texlen, width, height), i)
  {
    var blocklen := BlockLength(texlen, width, height);
    var idata: nat := 0;
    var iw: nat := width;
    var ih: nat := height;
    uploads := [];
    var i := 0;
    while i < levels
      invariant i <= levels
      invariant WalkState(format, width, height, blocklen, i, iw, ih, idata, uploads)
    {
      // raster levels go through glTexImage2D, block levels through glCompressedTexImage2D
      var compressed := !(format == Bgr || format == Bgra);
      var ilen := LevelLength(format, iw, ih, blocklen);
      WalkStep(format, width, height, blocklen, i, iw, ih, idata, uploads, ilen, compressed);
      uploads := uploads + [LevelUpload(i, iw, ih, idata, ilen, compressed)];
      idata := idata + ilen;
      iw := Half(iw);
      ih := Half(ih);
      i := i + 1;
    }
    forall k | 0 <= k < levels
      ensures uploads[k] == ChainLevel(format, width, height, blocklen, k)
    {
      ChainAt(format, width, height, blocklen, levels, k);
    }
  }

  /** The chain covers the data without gaps or overlaps: level 0 starts at
      the beginning and every later level starts where the one before ends. */
  lemma {:induction false} ChainIsContiguous(format: PixelFormat, width: nat, height: nat, blocklen: nat, i: nat)
    ensures ChainLevel(format, width, height, blocklen, 0).offset == 0
    ensures ChainLevel(format, width, height, blocklen, i + 1).offset
            == ChainLevel(format, width, height, blocklen, i).offset + ChainLevel(format, width, height, blocklen, i).length
  {
  }
}
