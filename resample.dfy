/** The texture loader's two resamplers over 8-bit channels: the box-averaging
    downsampler used for the SMALL and MEDIUM size tiers, and the 16-bit
    fixed-point bilinear upsampler used for power-of-two correction. Both are
    generic in the number of bytes per pixel (1 to 4), which the source
    selects at run time; here that number is a parameter. */
module Resample {
  import opened Base

  // ---------------------------------------------------------------------
  // Raster addressing

  /** Offset of channel `i` of the pixel at (`row`, `col`) in a buffer whose
      rows are `pitch` bytes apart and whose pixels are `bpp` bytes wide. */
  function At(pitch: nat, bpp: nat, row: nat, col: nat, i: nat): nat
  {
    row * pitch + col * bpp + i
  }

  /** A buffer of `len` bytes holds a `width` x `height` image with the given
      pitch: a row of pixels fits in the pitch and the last pixel of the last
      row is inside the buffer. */
  predicate Holds(len: nat, width: nat, height: nat, pitch: nat, bpp: nat)
  {
    width * bpp <= pitch && (height == 0 || (height - 1) * pitch + width * bpp <= len)
  }

  lemma {:induction false} Distrib(a: int, b: int, c: int)
    ensures a * (b + c) == a * b + a * c
  {
  }

  lemma {:induction false} MulNonNegative(a: nat, b: nat)
    ensures a * b >= 0
  {
  }

  lemma {:induction false} MulLe(a: int, b: int, c: nat)
    requires a <= b
    ensures a * c <= b * c
  {
    assert b * c == a * c + (b - a) * c;
  }

  lemma {:induction false} MulAssoc(a: nat, b: nat, c: nat)
    ensures a * b * c == a * (b * c)
  {
  }

  lemma {:induction false} MulGe(a: nat, b: nat)
    requires a >= 1
    ensures a * b >= b
  {
    assert a * b == b + (a - 1) * b;
  }

  /** Euclidean division has one quotient: any `q` and `r < d` with
      `a == q * d + r` give `a / d == q`. */
  lemma {:induction false} DivUnique(a: nat, d: nat, q: nat, r: nat)
    requires d >= 1 && a == q * d + r && r < d
    ensures a / d == q
  {
    var q', r' := a / d, a % d;
    assert a == q' * d + r';
    if q' < q {
      assert (q - q') * d == r' - r;
      MulGe(q - q', d);
      assert false;
    } else if q' > q {
      assert (q' - q) * d == r - r';
      MulGe(q' - q, d);
      assert false;
    }
  }

  /** An offset within `pitch` bytes after the start of row `row` lies in
      that row, at column offset `k - row * pitch`. */
  lemma {:induction false} RowOf(pitch: nat, row: nat, k: nat)
    requires pitch >= 1 && row * pitch <= k < row * pitch + pitch
    ensures k / pitch == row && k % pitch == k - row * pitch
  {
    DivUnique(k, pitch, row, k - row * pitch);
  }

  /** Offset `k` lies outside every pixel of a `width` x `height` image at
      `pitch`: in a row at or after `height`, or in a row's padding. With a
      zero pitch the image has no bytes at all. */
  predicate OffImage(pitch: nat, bpp: nat, width: nat, height: nat, k: nat)
  {
    pitch == 0 || k / pitch >= height || k % pitch >= width * bpp
  }

  /** No byte of a pixel of the image is off the image, so a frame stated
      with OffImage never covers a byte the resampler writes. */
  lemma {:induction false} PixelNotOffImage(pitch: nat, bpp: nat, width: nat, height: nat, row: nat, col: nat, i: nat)
    requires width * bpp <= pitch
    requires row < height && col < width && i < bpp
    ensures !OffImage(pitch, bpp, width, height, At(pitch, bpp, row, col, i))
  {
    MulLe(col + 1, width, bpp);
    assert (col + 1) * bpp == col * bpp + bpp;
    RowOf(pitch, row, At(pitch, bpp, row, col, i));
  }

  /** A byte off an image of `row + 1` rows is off the image of `row` rows
      and outside the pixels of row `row`. */
  lemma {:induction false} OffImageStep(pitch: nat, bpp: nat, width: nat, row: nat, k: nat)
    requires width * bpp <= pitch
    requires OffImage(pitch, bpp, width, row + 1, k)
    ensures OffImage(pitch, bpp, width, row, k)
    ensures !(row * pitch <= k < row * pitch + width * bpp)
  {
    if pitch != 0 && row * pitch <= k < row * pitch + width * bpp {
      RowOf(pitch, row, k);
      assert false;
    }
  }

  /** A buffer of `w * h * bpp` bytes holds a `w` x `h` image whose rows are
      packed `w * bpp` bytes apart. */
  lemma {:induction false} PackedHolds(w: nat, h: nat, bpp: nat)
    ensures Holds(w * h * bpp, w, h, w * bpp, bpp)
  {
    if h >= 1 {
      MulAssoc(h - 1, w, bpp);
      MulAssoc(h, w, bpp);
      assert (h - 1) * (w * bpp) + w * bpp == h * (w * bpp);
    }
  }

  /** A buffer that holds an image with padded rows also holds it with the
      rows read `width * bpp` bytes apart. */
  lemma {:induction false} HoldsUnpadded(len: nat, width: nat, height: nat, pitch: nat, bpp: nat)
    requires Holds(len, width, height, pitch, bpp)
    ensures Holds(len, width, height, width * bpp, bpp)
  {
    if height >= 1 {
      MulLe(width * bpp, pitch, height - 1);
      assert (height - 1) * (width * bpp) <= (height - 1) * pitch;
    }
  }

  /** Every channel of every pixel of an image lies inside a buffer that holds it. */
  lemma {:induction false} AtInside(len: nat, width: nat, height: nat, pitch: nat, bpp: nat, row: nat, col: nat, i: nat)
    requires Holds(len, width, height, pitch, bpp)
    requires row < height && col < width && i < bpp
    ensures At(pitch, bpp, row, col, i) < len
  {
    MulLe(col + 1, width, bpp);
    assert (col + 1) * bpp == col * bpp + bpp;
    MulLe(row, height - 1, pitch);
  }

  /** Pixels of one image, visited row by row and channel by channel, have
      strictly increasing offsets; in particular distinct channels never share
      a byte. */
  lemma {:induction false} AtBefore(pitch: nat, bpp: nat, width: nat,
                 r1: nat, c1: nat, i1: nat, r2: nat, c2: nat, i2: nat)
    requires width * bpp <= pitch
    requires c1 < width && c2 < width && i1 < bpp && i2 < bpp
    requires r1 < r2 || (r1 == r2 && c1 < c2) || (r1 == r2 && c1 == c2 && i1 < i2)
    ensures At(pitch, bpp, r1, c1, i1) < At(pitch, bpp, r2, c2, i2)
  {
    if r1 < r2 {
      MulLe(c1 + 1, width, bpp);
      assert (c1 + 1) * bpp == c1 * bpp + bpp;
      MulLe(r1 + 1, r2, pitch);
      assert (r1 + 1) * pitch == r1 * pitch + pitch;
    } else if c1 < c2 {
      MulLe(c1 + 1, c2, bpp);
      assert (c1 + 1) * bpp == c1 * bpp + bpp;
    }
  }

  // ---------------------------------------------------------------------
  // Box-averaging downsampler

  /** Channel `i` of the pixel `dy` rows below and `dx` columns right of (`row`, `col`). */
  function Sample(src: seq<Byte>, pitch: nat, bpp: nat, row: nat, col: nat, dy: nat, dx: nat, i: nat): Byte
  {
    ByteAt(src, At(pitch, bpp, row + dy, col + dx, i))
  }

  /** Sum of channel `i` over the first `n` pixels of row `dy` of the block at (`row`, `col`). */
  function RowSum(src: seq<Byte>, pitch: nat, bpp: nat, row: nat, col: nat, dy: nat, i: nat, n: nat): nat
  {
    if n == 0 then 0
    else RowSum(src, pitch, bpp, row, col, dy, i, n - 1) + Sample(src, pitch, bpp, row, col, dy, n - 1, i)
  }

  /** Sum of channel `i` over the first `m` rows of the `w`-wide block at (`row`, `col`). */
  function BlockSum(src: seq<Byte>, pitch: nat, bpp: nat, row: nat, col: nat, i: nat, w: nat, m: nat): nat
  {
    if m == 0 then 0
    else BlockSum(src, pitch, bpp, row, col, i, w, m - 1) + RowSum(src, pitch, bpp, row, col, m - 1, i, w)
  }

  /** Channel `i` of destination pixel (`y`, `x`): the sum of its
      `scalex` x `scaley` source block divided, truncating, by the block's area. */
  function BoxAverage(src: seq<Byte>, pitch: nat, bpp: nat, scalex: nat, scaley: nat, y: nat, x: nat, i: nat): nat
    requires scalex >= 1 && scaley >= 1
  {
    BlockSum(src, pitch, bpp, y * scaley, x * scalex, i, scalex, scaley) / (scalex * scaley)
  }

  /** Every sample of channel `i` of a `w` x `m` block lies in [lo, hi]. */
  ghost predicate BlockWithin(src: seq<Byte>, pitch: nat, bpp: nat, row: nat, col: nat, i: nat,
                              w: nat, m: nat, lo: int, hi: int)
  {
    forall dy: nat, dx: nat :: dy < m && dx < w ==>
      lo <= Sample(src, pitch, bpp, row, col, dy, dx, i) <= hi
  }

  lemma {:induction false} RowSumRange(src: seq<Byte>, pitch: nat, bpp: nat, row: nat, col: nat, dy: nat,
                                       i: nat, n: nat, lo: int, hi: int)
    requires forall dx: nat :: dx < n ==> lo <= Sample(src, pitch, bpp, row, col, dy, dx, i) <= hi
    ensures lo * n <= RowSum(src, pitch, bpp, row, col, dy, i, n) <= hi * n
  {
    if n > 0 {
      RowSumRange(src, pitch, bpp, row, col, dy, i, n - 1, lo, hi);
      assert lo <= Sample(src, pitch, bpp, row, col, dy, n - 1, i) <= hi;
      assert lo * n == lo * (n - 1) + lo;
      assert hi * n == hi * (n - 1) + hi;
    }
  }

  lemma {:induction false} BlockSumRange(src: seq<Byte>, pitch: nat, bpp: nat, row: nat, col: nat, i: nat,
                                         w: nat, m: nat, lo: int, hi: int)
    requires BlockWithin(src, pitch, bpp, row, col, i, w, m, lo, hi)
    ensures lo * (w * m) <= BlockSum(src, pitch, bpp, row, col, i, w, m) <= hi * (w * m)
  {
    if m > 0 {
      BlockSumRange(src, pitch, bpp, row, col, i, w, m - 1, lo, hi);
      RowSumRange(src, pitch, bpp, row, col, m - 1, i, w, lo, hi);
      var a := w * (m - 1);
      Distrib(w, m - 1, 1);
      assert w * m == a + w;
      Distrib(lo, a, w);
      Distrib(hi, a, w);
    }
  }

  lemma {:induction false} DivBetween(s: int, d: nat, lo: int, hi: int)
    requires d >= 1 && lo * d <= s <= hi * d
    ensures lo <= s / d <= hi
  {
    var q, r := s / d, s % d;
    assert s == q * d + r && 0 <= r < d;
    if q < lo {
      MulLe(q + 1, lo, d);
      assert false;
    }
    if q > hi {
      MulLe(hi + 1, q, d);
      assert false;
    }
  }

  /** The average of a block lies between the least and the greatest of its
      samples; in particular it always fits in a byte. */
  lemma {:induction false} BoxAverageWithin(src: seq<Byte>, pitch: nat, bpp: nat, scalex: nat, scaley: nat,
                         y: nat, x: nat, i: nat, lo: int, hi: int)
    requires scalex >= 1 && scaley >= 1
    requires BlockWithin(src, pitch, bpp, y * scaley, x * scalex, i, scalex, scaley, lo, hi)
    ensures lo <= BoxAverage(src, pitch, bpp, scalex, scaley, y, x, i) <= hi
  {
    BlockSumRange(src, pitch, bpp, y * scaley, x * scalex, i, scalex, scaley, lo, hi);
    DivBetween(BlockSum(src, pitch, bpp, y * scaley, x * scalex, i, scalex, scaley),
               scalex * scaley, lo, hi);
  }

  /** With a 1 x 1 block the downsampler copies its source. */
  lemma {:induction false} BoxAverageUnitScale(src: seq<Byte>, pitch: nat, bpp: nat, y: nat, x: nat, i: nat)
    ensures BoxAverage(src, pitch, bpp, 1, 1, y, x, i) == Sample(src, pitch, bpp, y, x, 0, 0, i)
  {
    assert BlockSum(src, pitch, bpp, y, x, i, 1, 1) == RowSum(src, pitch, bpp, y, x, 0, i, 1);
  }

  /** A byte-valued block average never exceeds 255. */
  lemma {:induction false} BoxAverageIsByte(src: seq<Byte>, pitch: nat, bpp: nat, scalex: nat, scaley: nat,
                         y: nat, x: nat, i: nat)
    requires scalex >= 1 && scaley >= 1
    ensures BoxAverage(src, pitch, bpp, scalex, scaley, y, x, i) <= 255
  {
    BoxAverageWithin(src, pitch, bpp, scalex, scaley, y, x, i, 0, 255);
  }

  /** Accumulates, for every channel, the sum of the `scalex` x `scaley` block
      at (`row`, `col`) into `acc` (the source's `acc[bytespp]` inner loops). */
  method AccumulateBlock(bytespp: nat, srcWidth: nat, srcHeight: nat, srcPitch: nat, src: seq<Byte>,
                         row: nat, col: nat, scalex: nat, scaley: nat, acc: array<nat>)
    requires acc.Length == bytespp
    requires Holds(|src|, srcWidth, srcHeight, srcPitch, bytespp)
    requires row + scaley <= srcHeight && col + scalex <= srcWidth
    modifies acc
    ensures forall i :: 0 <= i < bytespp ==>
      acc[i] == BlockSum(src, srcPitch, bytespp, row, col, i, scalex, scaley)
  {
    var i := 0;
    while i < bytespp
      invariant 0 <= i <= bytespp
      invariant forall k :: 0 <= k < i ==> acc[k] == 0
    {
      acc[i] := 0;
      i := i + 1;
    }
    var dy := 0;
    while dy < scaley
      invariant 0 <= dy <= scaley
      invariant forall k :: 0 <= k < bytespp ==>
        acc[k] == BlockSum(src, srcPitch, bytespp, row, col, k, scalex, dy)
    {
      var dx := 0;
      while dx < scalex
        invariant 0 <= dx <= scalex
        invariant forall k :: 0 <= k < bytespp ==>
          acc[k] == BlockSum(src, srcPitch, bytespp, row, col, k, scalex, dy)
                    + RowSum(src, srcPitch, bytespp, row, col, dy, k, dx)
      {
        i := 0;
        while i < bytespp
          invariant 0 <= i <= bytespp
          invariant forall k :: 0 <= k < i ==>
            acc[k] == BlockSum(src, srcPitch, bytespp, row, col, k, scalex, dy)
                      + RowSum(src, srcPitch, bytespp, row, col, dy, k, dx + 1)
          invariant forall k :: i <= k < bytespp ==>
            acc[k] == BlockSum(src, srcPitch, bytespp, row, col, k, scalex, dy)
                      + RowSum(src, srcPitch, bytespp, row, col, dy, k, dx)
        {
          AtInside(|src|, srcWidth, srcHeight, srcPitch, bytespp, row + dy, col + dx, i);
          acc[i] := acc[i] + src[At(srcPitch, bytespp, row + dy, col + dx, i)];
          i := i + 1;
        }
        dx := dx + 1;
      }
      dy := dy + 1;
    }
  }

  /** Stores `acc[i] / div` into the `bytespp` channels of the pixel at
      offset `dp` (the source's final `*dp = acc[i] / div` loop). */
  method StoreAverage(dst: array<Byte>, dp: nat, bytespp: nat, acc: array<nat>, div: nat)
    requires acc.Length == bytespp && dp + bytespp <= dst.Length && div >= 1
    requires forall k :: 0 <= k < bytespp ==> acc[k] / div <= 255
    modifies dst
    ensures forall k :: 0 <= k < bytespp ==> dst[dp + k] == acc[k] / div
    ensures forall k :: 0 <= k < dst.Length && !(dp <= k < dp + bytespp) ==> dst[k] == old(dst[k])
  {
    var i := 0;
    while i < bytespp
      invariant 0 <= i <= bytespp
      invariant forall k :: 0 <= k < i ==> dst[dp + k] == acc[k] / div
      invariant forall k :: 0 <= k < dst.Length && !(dp <= k < dp + i) ==> dst[k] == old(dst[k])
    {
      dst[dp + i] := acc[i] / div;
      i := i + 1;
    }
  }

  /** Destination pixel (`y`, `x`) of the averaging downsampler. */
  method SampleDownPixel(bytespp: nat, srcWidth: nat, srcHeight: nat, srcPitch: nat, src: seq<Byte>,
                         dstWidth: nat, dstHeight: nat, dstPitch: nat, dst: array<Byte>,
                         scalex: nat, scaley: nat, y: nat, x: nat, acc: array<nat>)
    requires 1 <= bytespp && 1 <= scalex && 1 <= scaley && acc.Length == bytespp
    requires scalex * dstWidth == srcWidth && y * scaley + scaley <= srcHeight
    requires y < dstHeight && x < dstWidth
    requires Holds(|src|, srcWidth, srcHeight, srcPitch, bytespp)
    requires Holds(dst.Length, dstWidth, dstHeight, dstPitch, bytespp)
    modifies dst, acc
    ensures forall i :: 0 <= i < bytespp ==>
      ByteAt(dst[..], At(dstPitch, bytespp, y, x, i)) == BoxAverage(src, srcPitch, bytespp, scalex, scaley, y, x, i)
    ensures forall k :: 0 <= k < dst.Length && !(At(dstPitch, bytespp, y, x, 0) <= k < At(dstPitch, bytespp, y, x, 0) + bytespp) ==>
      dst[k] == old(dst[k])
  {
    assert x * scalex + scalex <= srcWidth by {
      MulLe(x + 1, dstWidth, scalex);
      assert (x + 1) * scalex == x * scalex + scalex;
    }
    AccumulateBlock(bytespp, srcWidth, srcHeight, srcPitch, src, y * scaley, x * scalex, scalex, scaley, acc);
    var div := scalex * scaley;
    forall i | 0 <= i < bytespp
      ensures acc[i] / div == BoxAverage(src, srcPitch, bytespp, scalex, scaley, y, x, i) <= 255
    {
      BoxAverageIsByte(src, srcPitch, bytespp, scalex, scaley, y, x, i);
    }
    var dp := At(dstPitch, bytespp, y, x, 0);
    assert dp + bytespp <= dst.Length by {
      AtInside(dst.Length, dstWidth, dstHeight, dstPitch, bytespp, y, x, bytespp - 1);
    }
    StoreAverage(dst, dp, bytespp, acc, div);
    forall i | 0 <= i < bytespp
      ensures ByteAt(dst[..], At(dstPitch, bytespp, y, x, i)) == BoxAverage(src, srcPitch, bytespp, scalex, scaley, y, x, i)
    {
      assert dp + i < dst.Length;
      assert ByteAt(dst[..], dp + i) == dst[dp + i];
    }
  }

  /** One destination row `y` of the averaging downsampler; no byte outside
      that row's pixels changes. */
  method SampleDownRow(bytespp: nat, srcWidth: nat, srcHeight: nat, srcPitch: nat, src: seq<Byte>,
                       dstWidth: nat, dstHeight: nat, dstPitch: nat, dst: array<Byte>,
                       scalex: nat, scaley: nat, y: nat, acc: array<nat>)
    requires 1 <= bytespp && 1 <= scalex && 1 <= scaley && acc.Length == bytespp
    requires scalex * dstWidth == srcWidth && y * scaley + scaley <= srcHeight && y < dstHeight
    requires Holds(|src|, srcWidth, srcHeight, srcPitch, bytespp)
    requires Holds(dst.Length, dstWidth, dstHeight, dstPitch, bytespp)
    modifies dst, acc
    ensures forall x, i :: 0 <= x < dstWidth && 0 <= i < bytespp ==>
      ByteAt(dst[..], At(dstPitch, bytespp, y, x, i)) == BoxAverage(src, srcPitch, bytespp, scalex, scaley, y, x, i)
    ensures forall k :: 0 <= k < dst.Length && !(y * dstPitch <= k < y * dstPitch + dstWidth * bytespp) ==> dst[k] == old(dst[k])
  {
    var x := 0;
    while x < dstWidth
      invariant 0 <= x <= dstWidth
      invariant forall x', i' :: 0 <= i' < bytespp && 0 <= x' < x ==>
        ByteAt(dst[..], At(dstPitch, bytespp, y, x', i')) == BoxAverage(src, srcPitch, bytespp, scalex, scaley, y, x', i')
      invariant forall k :: 0 <= k < dst.Length && !(y * dstPitch <= k < y * dstPitch + x * bytespp) ==> dst[k] == old(dst[k])
    {
      ghost var before := dst[..];
      SampleDownPixel(bytespp, srcWidth, srcHeight, srcPitch, src, dstWidth, dstHeight, dstPitch, dst,
                      scalex, scaley, y, x, acc);
      forall k | 0 <= k < dst.Length && !(y * dstPitch <= k < y * dstPitch + (x + 1) * bytespp)
        ensures dst[k] == old(dst[k])
      {
        assert (x + 1) * bytespp == x * bytespp + bytespp;
        assert dst[k] == before[k];
      }
      forall x', i' | 0 <= i' < bytespp && 0 <= x' < x
        ensures ByteAt(dst[..], At(dstPitch, bytespp, y, x', i')) == BoxAverage(src, srcPitch, bytespp, scalex, scaley, y, x', i')
      {
        var k := At(dstPitch, bytespp, y, x', i');
        AtBefore(dstPitch, bytespp, dstWidth, y, x', i', y, x, 0);
        AtInside(dst.Length, dstWidth, dstHeight, dstPitch, bytespp, y, x', i');
        assert dst[k] == before[k];
        assert ByteAt(dst[..], k) == ByteAt(before, k);
      }
      x := x + 1;
    }
  }

  /** The averaging downsampler: destination pixel (y, x) is the truncated
      mean of the `scalex` x `scaley` source block at (y * scaley, x * scalex),
      where the scales are the exact ratios of source to destination size. */
  method SampleDownAvg(bytespp: nat, srcWidth: nat, srcHeight: nat, srcPitch: nat, src: seq<Byte>,
                       dstWidth: nat, dstHeight: nat, dstPitch: nat, dst: array<Byte>)
    requires 1 <= bytespp <= 4
    requires 1 <= dstWidth <= srcWidth && 1 <= dstHeight <= srcHeight
    requires (srcWidth / dstWidth) * dstWidth == srcWidth
    requires (srcHeight / dstHeight) * dstHeight == srcHeight
    requires Holds(|src|, srcWidth, srcHeight, srcPitch, bytespp)
    requires Holds(dst.Length, dstWidth, dstHeight, dstPitch, bytespp)
    modifies dst
    ensures forall y, x, i :: 0 <= y < dstHeight && 0 <= x < dstWidth && 0 <= i < bytespp ==>
      ByteAt(dst[..], At(dstPitch, bytespp, y, x, i))
        == BoxAverage(src, srcPitch, bytespp, srcWidth / dstWidth, srcHeight / dstHeight, y, x, i)
    ensures forall k :: 0 <= k < dst.Length && OffImage(dstPitch, bytespp, dstWidth, dstHeight, k) ==> dst[k] == old(dst[k])
  {
    var scalex := srcWidth / dstWidth;
    var scaley := srcHeight / dstHeight;
    var acc := new nat[bytespp];
    var y := 0;
    while y < dstHeight
      invariant 0 <= y <= dstHeight
      invariant forall y', x', i' :: 0 <= y' < y && 0 <= x' < dstWidth && 0 <= i' < bytespp ==>
        ByteAt(dst[..], At(dstPitch, bytespp, y', x', i')) == BoxAverage(src, srcPitch, bytespp, scalex, scaley, y', x', i')
      invariant forall k :: 0 <= k < dst.Length && OffImage(dstPitch, bytespp, dstWidth, y, k) ==> dst[k] == old(dst[k])
    {
      MulLe(y + 1, dstHeight, scaley);
      assert (y + 1) * scaley == y * scaley + scaley;
      ghost var before := dst[..];
      SampleDownRow(bytespp, srcWidth, srcHeight, srcPitch, src, dstWidth, dstHeight, dstPitch, dst,
                    scalex, scaley, y, acc);
      forall k | 0 <= k < dst.Length && OffImage(dstPitch, bytespp, dstWidth, y + 1, k)
        ensures dst[k] == old(dst[k])
      {
        OffImageStep(dstPitch, bytespp, dstWidth, y, k);
        assert dst[k] == before[k];
      }
      forall y', x', i' | 0 <= y' < y && 0 <= x' < dstWidth && 0 <= i' < bytespp
        ensures ByteAt(dst[..], At(dstPitch, bytespp, y', x', i')) == BoxAverage(src, srcPitch, bytespp, scalex, scaley, y', x', i')
      {
        var k := At(dstPitch, bytespp, y', x', i');
        AtBefore(dstPitch, bytespp, dstWidth, y', x', i', y, 0, 0);
        AtInside(dst.Length, dstWidth, dstHeight, dstPitch, bytespp, y', x', i');
        assert dst[k] == before[k];
        assert ByteAt(dst[..], k) == ByteAt(before, k);
      }
      y := y + 1;
    }
  }

  /** Averaging a 2 x 4 image down to one pixel stored at pitch 2 leaves the
      row's padding byte as it was. */
  method DownsampleKeepsPadding() returns (padding: Byte)
    ensures padding == 7
  {
    var dst := new Byte[2];
    dst[1] := 7;
    SampleDownAvg(1, 2, 4, 2, [10, 20, 30, 40, 50, 60, 70, 80], 1, 1, 2, dst);
    padding := dst[1];
  }

  // ---------------------------------------------------------------------
  // Bilinear upsampler (16-bit fixed point)

  /** One in fixed point: the weights of a blend sum to this. */
  const One: nat := 0x10000

  /** Distance in source pixels, in 16.16 fixed point, between two
      neighbouring destination pixels: `(s << 16) / d`. */
  function Step(s: nat, d: nat): nat
    requires d >= 1
  {
    (s * One) / d
  }

  /** Blend of `a` and `b` with weights `One - f` and `f` (which sum to One),
      truncated back to an integer: `(a * f0 + b * f1) >> 16`. */
  function Lerp(a: int, b: int, f: nat): int
    requires f <= One
  {
    (a * (One - f) + b * f) / One
  }

  /** Channel `i` blended from the 2 x 2 neighbourhood whose top-left pixel is
      (`row`, `col`): first along each of the two rows with weight `fx`, then
      between the two results with weight `fy`. The right and lower neighbours
      are read whatever their weight, as the source does. */
  function Blend(src: seq<Byte>, pitch: nat, bpp: nat, row: nat, col: nat, fx: nat, fy: nat, i: nat): int
    requires fx < One && fy < One
  {
    var t0 := Lerp(Sample(src, pitch, bpp, row, col, 0, 0, i), Sample(src, pitch, bpp, row, col, 0, 1, i), fx);
    var t1 := Lerp(Sample(src, pitch, bpp, row, col, 1, 0, i), Sample(src, pitch, bpp, row, col, 1, 1, i), fx);
    Lerp(t0, t1, fy)
  }

  /** Channel `i` of destination pixel (`y`, `x`): the source position is
      (y * dy, x * dx) in 16.16 fixed point; its integer part selects the
      neighbourhood, its fraction the weights. */
  function Bilinear(src: seq<Byte>, pitch: nat, bpp: nat, dx: nat, dy: nat, y: nat, x: nat, i: nat): int
  {
    Blend(src, pitch, bpp, (y * dy) / One, (x * dx) / One, (x * dx) % One, (y * dy) % One, i)
  }

  /** A fixed-point blend lies between the two values it blends. */
  lemma {:induction false} LerpWithin(a: int, b: int, f: nat)
    requires f <= One
    ensures Min(a, b) <= Lerp(a, b, f) <= Max(a, b)
  {
    var lo, hi := Min(a, b), Max(a, b);
    MulLe(lo, a, One - f);
    MulLe(a, hi, One - f);
    MulLe(lo, b, f);
    MulLe(b, hi, f);
    Distrib(lo, One - f, f);
    Distrib(hi, One - f, f);
    DivBetween(a * (One - f) + b * f, One, lo, hi);
  }

  /** Every blended channel lies between the least and the greatest of the
      four source samples it is blended from (bilinear convexity). */
  lemma {:induction false} BlendWithin(src: seq<Byte>, pitch: nat, bpp: nat, row: nat, col: nat, fx: nat, fy: nat, i: nat)
    requires fx < One && fy < One
    ensures var p00, p01 := Sample(src, pitch, bpp, row, col, 0, 0, i), Sample(src, pitch, bpp, row, col, 0, 1, i);
      var p10, p11 := Sample(src, pitch, bpp, row, col, 1, 0, i), Sample(src, pitch, bpp, row, col, 1, 1, i);
      Min(Min(p00, p01), Min(p10, p11)) <= Blend(src, pitch, bpp, row, col, fx, fy, i) <= Max(Max(p00, p01), Max(p10, p11))
  {
    var p00, p01 := Sample(src, pitch, bpp, row, col, 0, 0, i), Sample(src, pitch, bpp, row, col, 0, 1, i);
    var p10, p11 := Sample(src, pitch, bpp, row, col, 1, 0, i), Sample(src, pitch, bpp, row, col, 1, 1, i);
    LerpWithin(p00, p01, fx);
    LerpWithin(p10, p11, fx);
    LerpWithin(Lerp(p00, p01, fx), Lerp(p10, p11, fx), fy);
  }

  /** Hence every upsampled channel is a byte. */
  lemma {:induction false} BlendIsByte(src: seq<Byte>, pitch: nat, bpp: nat, row: nat, col: nat, fx: nat, fy: nat, i: nat)
    requires fx < One && fy < One
    ensures 0 <= Blend(src, pitch, bpp, row, col, fx, fy, i) <= 255
  {
    BlendWithin(src, pitch, bpp, row, col, fx, fy, i);
  }

  /** Index of the last pixel along an axis of `n` pixels (0 when there is none). */
  function LastIndex(n: nat): nat
  {
    if n == 0 then 0 else n - 1
  }

  /** The bytes the upsampler may read: every row up to and including the one
      after the last, and in it one pixel beyond the last column. */
  predicate UpsampleReadable(len: nat, width: nat, height: nat, pitch: nat, bpp: nat)
  {
    (LastIndex(height) + 1) * pitch + (LastIndex(width) + 2) * bpp <= len
  }

  /** The integer part of a sampled position never passes the last source pixel. */
  lemma {:induction false} SampledIndexBound(s: nat, d: nat, y: nat)
    requires d >= 1 && y < d
    ensures (y * Step(s, d)) / One <= LastIndex(s)
  {
    var st := Step(s, d);
    assert d * st <= s * One by {
      assert s * One == st * d + (s * One) % d;
    }
    MulLe(y, d - 1, st);
    assert (d - 1) * st == d * st - st;
    if s > 0 {
      assert y * st < s * One;
      var q := (y * st) / One;
      assert y * st == q * One + (y * st) % One;
      if q >= s {
        MulLe(s, q, One);
        assert false;
      }
    } else {
      assert st == 0;
    }
  }

  /** With source dimensions below 2^16 (the only caller asserts at most 4096)
      every intermediate of the upsampler fits in 32 unsigned bits, so the
      unbounded arithmetic of this model agrees with the source's. */
  lemma {:induction false} UpsampleFitsIn32Bits(s: nat, d: nat, y: nat, a: Byte, b: Byte, f: nat)
    requires 1 <= d && s <= d && s < One && y < d && f <= One
    ensures s * One < 0x1_0000_0000 && y * Step(s, d) < 0x1_0000_0000
    ensures a * (One - f) + b * f < 0x1_0000_0000
  {
    var st := Step(s, d);
    assert d * st <= s * One by {
      assert s * One == st * d + (s * One) % d;
    }
    MulLe(y, d, st);
    MulLe(s, One - 1, One);
    MulLe(a, 255, One - f);
    MulLe(b, 255, f);
    Distrib(255, One - f, f);
  }

  /** The source reads past the image: upsampling a 3 x 3 one-byte image with
      pitch 3 to 4 x 4, destination pixel (3, 0) takes a quarter of its value
      from offset 9, the first byte after the image, so two buffers that agree
      on the whole image give different results. */
  lemma {:induction false} UpsampleReadsPastImage()
    ensures var dy, dx := Step(3, 4), Step(3, 4);
      var img := [0, 0, 0, 0, 0, 0, 0, 0, 0];
      Bilinear(img + [0, 0], 3, 1, dx, dy, 3, 0, 0) == 0 &&
      Bilinear(img + [255, 0], 3, 1, dx, dy, 3, 0, 0) == 63
  {
    var img: seq<Byte> := [0, 0, 0, 0, 0, 0, 0, 0, 0];
    assert Step(3, 4) == 49152;
    assert (3 * 49152) / One == 2 && (3 * 49152) % One == 16384;
    var s1, s2 := img + [0, 0], img + [255, 0];
    assert Sample(s2, 3, 1, 2, 0, 1, 0, 0) == 255;
    assert Sample(s2, 3, 1, 2, 0, 1, 1, 0) == 0;
    assert Sample(s2, 3, 1, 2, 0, 0, 0, 0) == 0 && Sample(s2, 3, 1, 2, 0, 0, 1, 0) == 0;
    assert Sample(s1, 3, 1, 2, 0, 1, 0, 0) == 0 && Sample(s1, 3, 1, 2, 0, 1, 1, 0) == 0;
    assert Sample(s1, 3, 1, 2, 0, 0, 0, 0) == 0 && Sample(s1, 3, 1, 2, 0, 0, 1, 0) == 0;
  }

  /** Blends the `bytespp` channels of one destination pixel from the 2 x 2
      neighbourhood whose top-left channel 0 is at `sp0` (the source's
      innermost loop). */
  method BlendPixel(src: seq<Byte>, sp0: nat, srcPitch: nat, bytespp: nat, fx1: nat, fy1: nat,
                    dst: array<Byte>, dp: nat, ghost row: nat, ghost col: nat)
    requires fx1 < One && fy1 < One
    requires sp0 == At(srcPitch, bytespp, row, col, 0)
    requires sp0 + srcPitch + 2 * bytespp <= |src|
    requires dp + bytespp <= dst.Length
    modifies dst
    ensures forall k :: 0 <= k < bytespp ==> dst[dp + k] == Blend(src, srcPitch, bytespp, row, col, fx1, fy1, k)
    ensures forall k :: 0 <= k < dst.Length && !(dp <= k < dp + bytespp) ==> dst[k] == old(dst[k])
  {
    var fx0 := One - fx1;
    var fy0 := One - fy1;
    var sp1 := sp0 + srcPitch;
    var i := 0;
    while i < bytespp
      invariant 0 <= i <= bytespp
      invariant forall k :: 0 <= k < i ==> dst[dp + k] == Blend(src, srcPitch, bytespp, row, col, fx1, fy1, k)
      invariant forall k :: 0 <= k < dst.Length && !(dp <= k < dp + i) ==> dst[k] == old(dst[k])
    {
      var t0 := (src[sp0 + i] * fx0 + src[sp0 + i + bytespp] * fx1) / One;
      var t1 := (src[sp1 + i] * fx0 + src[sp1 + i + bytespp] * fx1) / One;
      var c := (t0 * fy0 + t1 * fy1) / One;
      assert t0 == Lerp(Sample(src, srcPitch, bytespp, row, col, 0, 0, i), Sample(src, srcPitch, bytespp, row, col, 0, 1, i), fx1) by {
        assert sp0 + i == At(srcPitch, bytespp, row + 0, col + 0, i);
        assert sp0 + i + bytespp == At(srcPitch, bytespp, row + 0, col + 1, i);
      }
      assert t1 == Lerp(Sample(src, srcPitch, bytespp, row, col, 1, 0, i), Sample(src, srcPitch, bytespp, row, col, 1, 1, i), fx1) by {
        assert sp1 + i == At(srcPitch, bytespp, row + 1, col + 0, i);
        assert sp1 + i + bytespp == At(srcPitch, bytespp, row + 1, col + 1, i);
      }
      assert c == Blend(src, srcPitch, bytespp, row, col, fx1, fy1, i);
      BlendIsByte(src, srcPitch, bytespp, row, col, fx1, fy1, i);
      dst[dp + i] := c;
      i := i + 1;
    }
  }

  /** The 2 x 2 neighbourhood of any sampled position lies in a buffer the
      upsampler may read. */
  lemma {:induction false} NeighbourhoodInside(len: nat, width: nat, height: nat, pitch: nat, bpp: nat, row: nat, col: nat)
    requires UpsampleReadable(len, width, height, pitch, bpp)
    requires row <= LastIndex(height) && col <= LastIndex(width)
    ensures At(pitch, bpp, row, col, 0) + pitch + 2 * bpp <= len
  {
    MulLe(row + 1, LastIndex(height) + 1, pitch);
    MulLe(col + 2, LastIndex(width) + 2, bpp);
    assert (row + 1) * pitch == row * pitch + pitch;
    assert (col + 2) * bpp == col * bpp + 2 * bpp;
  }

  /** Destination pixel (`y`, `x`) of the bilinear upsampler, given what its
      row shares: the source row `row`, its offset `spy` and the vertical
      weight `fy1`. */
  method SampleUpPixel(bytespp: nat, srcWidth: nat, srcHeight: nat, srcPitch: nat, src: seq<Byte>,
                       dstWidth: nat, dstHeight: nat, dstPitch: nat, dst: array<Byte>,
                       dx: nat, dy: nat, y: nat, x: nat, row: nat, spy: nat, fy1: nat)
    requires 1 <= bytespp && y < dstHeight && x < dstWidth
    requires dx == Step(srcWidth, dstWidth)
    requires row == (y * dy) / One && fy1 == (y * dy) % One
    requires row <= LastIndex(srcHeight) && spy == row * srcPitch
    requires UpsampleReadable(|src|, srcWidth, srcHeight, srcPitch, bytespp)
    requires Holds(dst.Length, dstWidth, dstHeight, dstPitch, bytespp)
    modifies dst
    ensures forall i :: 0 <= i < bytespp ==>
      ByteAt(dst[..], At(dstPitch, bytespp, y, x, i)) == Bilinear(src, srcPitch, bytespp, dx, dy, y, x, i)
    ensures forall k :: 0 <= k < dst.Length && !(At(dstPitch, bytespp, y, x, 0) <= k < At(dstPitch, bytespp, y, x, 0) + bytespp) ==>
      dst[k] == old(dst[k])
  {
    MulNonNegative(x, dx);
    var sx: nat := x * dx;
    var fx1: nat := sx % One;
    var col: nat := sx / One;
    var sp0 := spy + col * bytespp;
    assert sp0 + srcPitch + 2 * bytespp <= |src| by {
      SampledIndexBound(srcWidth, dstWidth, x);
      NeighbourhoodInside(|src|, srcWidth, srcHeight, srcPitch, bytespp, row, col);
    }
    var dp := At(dstPitch, bytespp, y, x, 0);
    assert dp + bytespp <= dst.Length by {
      AtInside(dst.Length, dstWidth, dstHeight, dstPitch, bytespp, y, x, bytespp - 1);
    }
    BlendPixel(src, sp0, srcPitch, bytespp, fx1, fy1, dst, dp, row, col);
    forall i | 0 <= i < bytespp
      ensures ByteAt(dst[..], At(dstPitch, bytespp, y, x, i)) == Bilinear(src, srcPitch, bytespp, dx, dy, y, x, i)
    {
      assert dp + i < dst.Length;
      assert ByteAt(dst[..], dp + i) == dst[dp + i];
    }
  }

  /** One destination row `y` of the bilinear upsampler; no byte outside
      that row's pixels changes. */
  method SampleUpRow(bytespp: nat, srcWidth: nat, srcHeight: nat, srcPitch: nat, src: seq<Byte>,
                     dstWidth: nat, dstHeight: nat, dstPitch: nat, dst: array<Byte>,
                     dx: nat, dy: nat, y: nat)
    requires 1 <= bytespp && 1 <= dstWidth && y < dstHeight
    requires dx == Step(srcWidth, dstWidth) && dy == Step(srcHeight, dstHeight)
    requires UpsampleReadable(|src|, srcWidth, srcHeight, srcPitch, bytespp)
    requires Holds(dst.Length, dstWidth, dstHeight, dstPitch, bytespp)
    modifies dst
    ensures forall x, i :: 0 <= x < dstWidth && 0 <= i < bytespp ==>
      ByteAt(dst[..], At(dstPitch, bytespp, y, x, i)) == Bilinear(src, srcPitch, bytespp, dx, dy, y, x, i)
    ensures forall k :: 0 <= k < dst.Length && !(y * dstPitch <= k < y * dstPitch + dstWidth * bytespp) ==> dst[k] == old(dst[k])
  {
    MulNonNegative(y, dy);
    var sy: nat := y * dy;
    var fy1: nat := sy % One;
    var row: nat := sy / One;
    SampledIndexBound(srcHeight, dstHeight, y);
    MulNonNegative(row, srcPitch);
    var spy: nat := row * srcPitch;
    var x := 0;
    while x < dstWidth
      invariant 0 <= x <= dstWidth
      invariant forall x', i' :: 0 <= i' < bytespp && 0 <= x' < x ==>
        ByteAt(dst[..], At(dstPitch, bytespp, y, x', i')) == Bilinear(src, srcPitch, bytespp, dx, dy, y, x', i')
      invariant forall k :: 0 <= k < dst.Length && !(y * dstPitch <= k < y * dstPitch + x * bytespp) ==> dst[k] == old(dst[k])
    {
      ghost var before := dst[..];
      SampleUpPixel(bytespp, srcWidth, srcHeight, srcPitch, src, dstWidth, dstHeight, dstPitch, dst,
                    dx, dy, y, x, row, spy, fy1);
      forall k | 0 <= k < dst.Length && !(y * dstPitch <= k < y * dstPitch + (x + 1) * bytespp)
        ensures dst[k] == old(dst[k])
      {
        assert (x + 1) * bytespp == x * bytespp + bytespp;
        assert dst[k] == before[k];
      }
      forall x', i' | 0 <= i' < bytespp && 0 <= x' < x
        ensures ByteAt(dst[..], At(dstPitch, bytespp, y, x', i')) == Bilinear(src, srcPitch, bytespp, dx, dy, y, x', i')
      {
        var k := At(dstPitch, bytespp, y, x', i');
        AtBefore(dstPitch, bytespp, dstWidth, y, x', i', y, x, 0);
        AtInside(dst.Length, dstWidth, dstHeight, dstPitch, bytespp, y, x', i');
        assert dst[k] == before[k];
        assert ByteAt(dst[..], k) == ByteAt(before, k);
      }
      x := x + 1;
    }
  }

  /** The bilinear upsampler: destination pixel (y, x) blends the 2 x 2 source
      neighbourhood at (y * dy, x * dx), with dx and dy the 16.16 fixed-point
      ratios of source to destination size. The caller must make readable the
      row after the last and the pixel after the last column, which the blend
      reads even where their weight is zero (and where it is not: see
      UpsampleReadsPastImage). */
  method SampleUpBilin(bytespp: nat, srcWidth: nat, srcHeight: nat, srcPitch: nat, src: seq<Byte>,
                       dstWidth: nat, dstHeight: nat, dstPitch: nat, dst: array<Byte>)
    requires 1 <= bytespp <= 4
    requires 1 <= dstWidth && 1 <= dstHeight
    requires srcWidth <= dstWidth && srcHeight <= dstHeight
    requires srcWidth < One && srcHeight < One
    requires UpsampleReadable(|src|, srcWidth, srcHeight, srcPitch, bytespp)
    requires Holds(dst.Length, dstWidth, dstHeight, dstPitch, bytespp)
    modifies dst
    ensures forall y, x, i :: 0 <= y < dstHeight && 0 <= x < dstWidth && 0 <= i < bytespp ==>
      ByteAt(dst[..], At(dstPitch, bytespp, y, x, i))
        == Bilinear(src, srcPitch, bytespp, Step(srcWidth, dstWidth), Step(srcHeight, dstHeight), y, x, i)
    ensures forall k :: 0 <= k < dst.Length && OffImage(dstPitch, bytespp, dstWidth, dstHeight, k) ==> dst[k] == old(dst[k])
  {
    var dx := Step(srcWidth, dstWidth);
    var dy := Step(srcHeight, dstHeight);
    var y := 0;
    while y < dstHeight
      invariant 0 <= y <= dstHeight
      invariant forall y', x', i' :: 0 <= y' < y && 0 <= x' < dstWidth && 0 <= i' < bytespp ==>
        ByteAt(dst[..], At(dstPitch, bytespp, y', x', i')) == Bilinear(src, srcPitch, bytespp, dx, dy, y', x', i')
      invariant forall k :: 0 <= k < dst.Length && OffImage(dstPitch, bytespp, dstWidth, y, k) ==> dst[k] == old(dst[k])
    {
      ghost var before := dst[..];
      SampleUpRow(bytespp, srcWidth, srcHeight, srcPitch, src, dstWidth, dstHeight, dstPitch, dst, dx, dy, y);
      forall k | 0 <= k < dst.Length && OffImage(dstPitch, bytespp, dstWidth, y + 1, k)
        ensures dst[k] == old(dst[k])
      {
        OffImageStep(dstPitch, bytespp, dstWidth, y, k);
        assert dst[k] == before[k];
      }
      forall y', x', i' | 0 <= y' < y && 0 <= x' < dstWidth && 0 <= i' < bytespp
        ensures ByteAt(dst[..], At(dstPitch, bytespp, y', x', i')) == Bilinear(src, srcPitch, bytespp, dx, dy, y', x', i')
      {
        var k := At(dstPitch, bytespp, y', x', i');
        AtBefore(dstPitch, bytespp, dstWidth, y', x', i', y, 0, 0);
        AtInside(dst.Length, dstWidth, dstHeight, dstPitch, bytespp, y', x', i');
        assert dst[k] == before[k];
        assert ByteAt(dst[..], k) == ByteAt(before, k);
      }
      y := y + 1;
    }
  }
}
