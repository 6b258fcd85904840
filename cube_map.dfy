/** Cube-map assembly. A vertical cross is one image three faces wide and four
    faces tall:

          +----+
          | +Y |
     +----+----+----+
     | -X | +Z | +X |
     +----+----+----+
          | -Y |
          +----+
          | -Z |
          +----+

    Every face but -Z is a straight crop of its cell; -Z is turned by 180
    degrees. Rows of the cross are taken to be `width * bytespp` bytes
    apart, whatever the image's real pitch. The alternative is six separate
    files, named by suffix. */
module CubeMap {
  import opened Base
  import opened GlEnums
  import opened Resample

  /** The face uploaded in iteration `i` of both loaders. */
  function FaceTarget(i: nat): Target
    requires i < 6
  {
    [CubeNegativeX, CubePositiveX, CubeNegativeY, CubePositiveY, CubeNegativeZ, CubePositiveZ][i]
  }

  /** Six iterations, six different faces. */
  lemma {:induction false} FaceTargetsDistinct(i: nat, j: nat)
    requires i < 6 && j < 6 && i != j
    ensures FaceTarget(i) != FaceTarget(j)
  {
  }

  /** The file of face `i` of a six-file cube map. */
  function CubeFileSuffix(i: nat): string
    requires i < 6
  {
    ["-xp.png", "-xn.png", "-yn.png", "-yp.png", "-zn.png", "-zp.png"][i]
  }

  // ---------------------------------------------------------------------
  // Vertical cross

  /** Position in pixels (x, y) of face `i`'s cell in a cross of `w` x `h`
      faces. */
  function CrossOffset(i: nat, w: nat, h: nat): (nat, nat)
    requires i < 6
  {
    if i == 0 then (0, h)
    else if i == 1 then (w * 2, h)
    else if i == 2 then (w, h * 2)
    else if i == 3 then (w, 0)
    else if i == 4 then (w, h * 3)
    else (w, h)
  }

  /** Cell (column, row) of face `i` in the 3 x 4 grid of the cross. */
  function CrossCell(i: nat): (nat, nat)
    requires i < 6
  {
    [(0, 1), (2, 1), (1, 2), (1, 0), (1, 3), (1, 1)][i]
  }

  /** The offsets are the cells scaled by the face size. */
  lemma {:induction false} CrossOffsetIsCell(i: nat, w: nat, h: nat)
    requires i < 6
    ensures CrossOffset(i, w, h) == (CrossCell(i).0 * w, CrossCell(i).1 * h)
  {
  }

  /** Source row of row `yi` of face `face`: -Z counts rows from the bottom of
      its cell, every other face from the top. */
  function SourceRow(face: nat, fh: nat, yi: nat): nat
    requires face < 6 && yi < fh
  {
    if face == 4 then (fh - yi - 1) + CrossOffset(face, 0, fh).1
    else yi + CrossOffset(face, 0, fh).1
  }

  /** Source column of column `xi` of face `face`: -Z counts columns from the
      right of its cell, every other face from the left. */
  function SourceCol(face: nat, fw: nat, xi: nat): nat
    requires face < 6 && xi < fw
  {
    if face == 4 then (fw - xi - 1) + CrossOffset(face, fw, 0).0
    else xi + CrossOffset(face, fw, 0).0
  }

  /** Each face reads only its own cell: row `yi` and column `xi` land in the
      cell's rows and columns, which lie inside the 3 x 4 grid. */
  lemma {:induction false} SourceInCell(face: nat, fw: nat, fh: nat, yi: nat, xi: nat)
    requires face < 6 && yi < fh && xi < fw
    ensures CrossCell(face).1 * fh <= SourceRow(face, fh, yi) < CrossCell(face).1 * fh + fh
    ensures CrossCell(face).0 * fw <= SourceCol(face, fw, xi) < CrossCell(face).0 * fw + fw
    ensures SourceRow(face, fh, yi) < 4 * fh && SourceCol(face, fw, xi) < 3 * fw
  {
    CrossOffsetIsCell(face, fw, fh);
    CrossOffsetIsCell(face, 0, fh);
    CrossOffsetIsCell(face, fw, 0);
  }

  /** No two faces read the same source pixel. */
  lemma {:induction false} FacesDisjoint(f1: nat, y1: nat, x1: nat, f2: nat, y2: nat, x2: nat, fw: nat, fh: nat)
    requires f1 < 6 && f2 < 6 && f1 != f2
    requires y1 < fh && x1 < fw && y2 < fh && x2 < fw
    ensures (SourceRow(f1, fh, y1), SourceCol(f1, fw, x1)) != (SourceRow(f2, fh, y2), SourceCol(f2, fw, x2))
  {
    SourceInCell(f1, fw, fh, y1, x1);
    SourceInCell(f2, fw, fh, y2, x2);
    var (c1, r1) := CrossCell(f1);
    var (c2, r2) := CrossCell(f2);
    assert (c1, r1) != (c2, r2);
    if r1 != r2 {
      CellsApart(r1, r2, fh, SourceRow(f1, fh, y1), SourceRow(f2, fh, y2));
    } else {
      CellsApart(c1, c2, fw, SourceCol(f1, fw, x1), SourceCol(f2, fw, x2));
    }
  }

  /** Positions in two different cells of one axis differ. */
  lemma {:induction false} CellsApart(a: nat, b: nat, size: nat, p: nat, q: nat)
    requires a != b
    requires a * size <= p < a * size + size && b * size <= q < b * size + size
    ensures p != q
  {
    if a < b {
      MulLe(a + 1, b, size);
    } else {
      MulLe(b + 1, a, size);
    }
  }

  /** -Z is the 180-degree rotation of the straight crop of its cell: its
      pixel (yi, xi) is the crop's pixel (fh - 1 - yi, fw - 1 - xi). The other
      faces are the straight crop itself. */
  lemma {:induction false} NegativeZRotated(face: nat, fw: nat, fh: nat, yi: nat, xi: nat)
    requires face < 6 && yi < fh && xi < fw
    ensures face == 4 ==> (SourceRow(face, fh, yi) == CrossCell(face).1 * fh + (fh - 1 - yi)
                           && SourceCol(face, fw, xi) == CrossCell(face).0 * fw + (fw - 1 - xi))
    ensures face != 4 ==> (SourceRow(face, fh, yi) == CrossCell(face).1 * fh + yi
                           && SourceCol(face, fw, xi) == CrossCell(face).0 * fw + xi)
  {
    CrossOffsetIsCell(face, 0, fh);
    CrossOffsetIsCell(face, fw, 0);
  }

  /** Rows of the cross are assumed `sw * bpp` bytes apart. With padded rows
      (here a 3 x 4 one-byte cross with faces of one pixel and a pitch of 4)
      +Z reads offset 4, which is the -X pixel (row 1, column 0) of the real
      image, not its own pixel at offset 5. */
  lemma {:induction false} CrossIgnoresPitch()
    ensures At(3 * 1, 1, SourceRow(5, 1, 0), SourceCol(5, 1, 0), 0) == 4
    ensures At(4, 1, SourceRow(0, 1, 0), SourceCol(0, 1, 0), 0) == 4
    ensures At(4, 1, SourceRow(5, 1, 0), SourceCol(5, 1, 0), 0) == 5
  {
  }

  /** The extracted face: byte `ci` of pixel (yi, xi) comes from the source
      pixel the face maps it to. */
  ghost predicate FaceCopied(face: seq<Byte>, pixels: seq<Byte>, sw: nat, bpp: nat, f: nat, fw: nat, fh: nat, rows: nat)
    requires f < 6
  {
    forall yi, xi, ci :: 0 <= yi < rows && yi < fh && 0 <= xi < fw && 0 <= ci < bpp ==>
      ByteAt(face, At(fw * bpp, bpp, yi, xi, ci)) == ByteAt(pixels, At(sw * bpp, bpp, SourceRow(f, fh, yi), SourceCol(f, fw, xi), ci))
  }

  /** The loaders' byte index into the cross for byte `ci` of face pixel
      (yi, xi), row stride `sw * bpp`. */
  function CrossIndex(f: nat, fw: nat, fh: nat, sw: nat, bpp: nat, yi: nat, xi: nat, ci: nat): int
    requires f < 6 && yi < fh && xi < fw
  {
    var (offsetx, offsety) := CrossOffset(f, fw, fh);
    if f == 4 then ((fh - yi - 1) + offsety) * sw * bpp + (fw - xi - 1 + offsetx) * bpp + ci
    else (yi + offsety) * sw * bpp + (xi + offsetx) * bpp + ci
  }

  /** The index is that of the mapped source pixel in an image of pitch
      `sw * bpp`. */
  lemma {:induction false} CrossIndexIsAt(f: nat, fw: nat, fh: nat, sw: nat, bpp: nat, yi: nat, xi: nat, ci: nat)
    requires f < 6 && yi < fh && xi < fw
    ensures CrossIndex(f, fw, fh, sw, bpp, yi, xi, ci)
            == At(sw * bpp, bpp, SourceRow(f, fh, yi), SourceCol(f, fw, xi), 0) + ci
  {
    var (offsetx, offsety) := CrossOffset(f, fw, fh);
    assert offsetx == CrossOffset(f, fw, 0).0 && offsety == CrossOffset(f, 0, fh).1;
    MulAssoc(SourceRow(f, fh, yi), sw, bpp);
  }

  /** Copies the `bpp` bytes of pixel (yi, xi) of face `f` (the innermost
      loop of the extraction). */
  method CopyFacePixel(pixels: seq<Byte>, sw: nat, bpp: nat, f: nat, fw: nat, fh: nat,
                       yi: nat, xi: nat, cubeface: array<Byte>)
    requires f < 6 && 1 <= bpp && yi < fh && xi < fw
    requires At(sw * bpp, bpp, SourceRow(f, fh, yi), SourceCol(f, fw, xi), bpp - 1) < |pixels|
    requires At(fw * bpp, bpp, yi, xi, bpp - 1) < cubeface.Length
    modifies cubeface
    ensures forall ci :: 0 <= ci < bpp ==>
      cubeface[At(fw * bpp, bpp, yi, xi, ci)] == pixels[At(sw * bpp, bpp, SourceRow(f, fh, yi), SourceCol(f, fw, xi), ci)]
    ensures forall k :: 0 <= k < cubeface.Length && k < At(fw * bpp, bpp, yi, xi, 0) ==> cubeface[k] == old(cubeface[k])
  {
    ghost var start := At(fw * bpp, bpp, yi, xi, 0);
    MulAssoc(yi, fw, bpp);
    var ci := 0;
    while ci < bpp
      invariant 0 <= ci <= bpp
      invariant forall c :: 0 <= c < ci ==>
        cubeface[At(fw * bpp, bpp, yi, xi, c)] == pixels[At(sw * bpp, bpp, SourceRow(f, fh, yi), SourceCol(f, fw, xi), c)]
      invariant forall k :: 0 <= k < cubeface.Length && !(start <= k < start + ci) ==> cubeface[k] == old(cubeface[k])
    {
      var idx1 := CrossIndex(f, fw, fh, sw, bpp, yi, xi, ci);
      CrossIndexIsAt(f, fw, fh, sw, bpp, yi, xi, ci);
      var idx2 := yi * fw * bpp + xi * bpp + ci;
      cubeface[idx2] := pixels[idx1];
      ci := ci + 1;
    }
  }

  /** Copies row `yi` of face `f`. */
  method CopyFaceRow(pixels: seq<Byte>, sw: nat, sh: nat, bpp: nat, f: nat, fw: nat, fh: nat,
                     yi: nat, cubeface: array<Byte>)
    requires f < 6 && 1 <= bpp && yi < fh
    requires 3 * fw <= sw && 4 * fh <= sh
    requires Holds(|pixels|, sw, sh, sw * bpp, bpp)
    requires Holds(cubeface.Length, fw, fh, fw * bpp, bpp)
    modifies cubeface
    ensures forall xi, ci :: 0 <= xi < fw && 0 <= ci < bpp ==>
      ByteAt(cubeface[..], At(fw * bpp, bpp, yi, xi, ci))
        == ByteAt(pixels, At(sw * bpp, bpp, SourceRow(f, fh, yi), SourceCol(f, fw, xi), ci))
    ensures forall k :: 0 <= k < cubeface.Length && k < yi * (fw * bpp) ==> cubeface[k] == old(cubeface[k])
  {
    var xi := 0;
    while xi < fw
      invariant 0 <= xi <= fw
      invariant forall x, ci :: 0 <= x < xi && 0 <= ci < bpp ==>
        ByteAt(cubeface[..], At(fw * bpp, bpp, yi, x, ci))
          == ByteAt(pixels, At(sw * bpp, bpp, SourceRow(f, fh, yi), SourceCol(f, fw, x), ci))
      invariant forall k :: 0 <= k < cubeface.Length && k < yi * (fw * bpp) ==> cubeface[k] == old(cubeface[k])
    {
      ghost var before := cubeface[..];
      assert At(sw * bpp, bpp, SourceRow(f, fh, yi), SourceCol(f, fw, xi), bpp - 1) < |pixels| by {
        SourceInCell(f, fw, fh, yi, xi);
        AtInside(|pixels|, sw, sh, sw * bpp, bpp, SourceRow(f, fh, yi), SourceCol(f, fw, xi), bpp - 1);
      }
      assert At(fw * bpp, bpp, yi, xi, bpp - 1) < cubeface.Length by {
        AtInside(cubeface.Length, fw, fh, fw * bpp, bpp, yi, xi, bpp - 1);
      }
      CopyFacePixel(pixels, sw, bpp, f, fw, fh, yi, xi, cubeface);
      forall ci | 0 <= ci < bpp
        ensures ByteAt(cubeface[..], At(fw * bpp, bpp, yi, xi, ci))
          == ByteAt(pixels, At(sw * bpp, bpp, SourceRow(f, fh, yi), SourceCol(f, fw, xi), ci))
      {
        AtInside(cubeface.Length, fw, fh, fw * bpp, bpp, yi, xi, ci);
      }
      forall x, ci | 0 <= x < xi && 0 <= ci < bpp
        ensures ByteAt(cubeface[..], At(fw * bpp, bpp, yi, x, ci))
          == ByteAt(pixels, At(sw * bpp, bpp, SourceRow(f, fh, yi), SourceCol(f, fw, x), ci))
      {
        var k := At(fw * bpp, bpp, yi, x, ci);
        AtBefore(fw * bpp, bpp, fw, yi, x, ci, yi, xi, 0);
        assert ByteAt(cubeface[..], k) == ByteAt(before, k);
      }
      xi := xi + 1;
    }
  }

  /** Face `f` of a vertical cross of `sw` x `sh` pixels, into a buffer of
      `fw * fh * bpp` bytes with `fw = sw / 3` and `fh = sh / 4`. */
  method ExtractFace(pixels: seq<Byte>, sw: nat, sh: nat, bpp: nat, f: nat, cubeface: array<Byte>)
    requires f < 6 && 1 <= bpp
    requires Holds(|pixels|, sw, sh, sw * bpp, bpp)
    requires cubeface.Length == (sw / 3) * (sh / 4) * bpp
    modifies cubeface
    ensures FaceCopied(cubeface[..], pixels, sw, bpp, f, sw / 3, sh / 4, sh / 4)
  {
    var fw, fh := sw / 3, sh / 4;
    PackedHolds(fw, fh, bpp);
    var yi := 0;
    while yi < fh
      invariant 0 <= yi <= fh
      invariant FaceCopied(cubeface[..], pixels, sw, bpp, f, fw, fh, yi)
    {
      ghost var before := cubeface[..];
      CopyFaceRow(pixels, sw, sh, bpp, f, fw, fh, yi, cubeface);
      forall y, x, ci | 0 <= y < yi && 0 <= x < fw && 0 <= ci < bpp
        ensures ByteAt(cubeface[..], At(fw * bpp, bpp, y, x, ci))
          == ByteAt(pixels, At(sw * bpp, bpp, SourceRow(f, fh, y), SourceCol(f, fw, x), ci))
      {
        var k := At(fw * bpp, bpp, y, x, ci);
        AtBefore(fw * bpp, bpp, fw, y, x, ci, yi, 0, 0);
        assert ByteAt(cubeface[..], k) == ByteAt(before, k);
      }
      yi := yi + 1;
    }
  }
}
