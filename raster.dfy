/** Layout of an RGBA raster: `width` pixels per row, four bytes per pixel
    (red, green, blue, alpha), rows stored one after the other. */
module Raster {
  import opened Palette

  newtype byte = x: int | 0 <= x < 256

  /** Byte offset of the first pixel of row y: the rows before it take
      4 * width bytes each. */
  function RowStart(width: nat, y: nat): nat {
    if y == 0 then 0 else RowStart(width, y - 1) + 4 * width
  }

  lemma RowStartSucc(width: nat, y: nat)
    ensures RowStart(width, y + 1) == RowStart(width, y) + 4 * width
  {
  }

  /** RowStart is the product y * width * 4. */
  lemma {:induction false} RowStartIsProduct(width: nat, y: nat)
    ensures RowStart(width, y) == y * width * 4
  {
    if y > 0 {
      RowStartIsProduct(width, y - 1);
      assert (y - 1) * width * 4 + 4 * width == y * width * 4;
    }
  }

  lemma {:induction false} RowStartMonotone(width: nat, y1: nat, y2: nat)
    requires y1 <= y2
    ensures RowStart(width, y1) <= RowStart(width, y2)
    decreases y2 - y1
  {
    if y1 < y2 {
      RowStartSucc(width, y2 - 1);
      RowStartMonotone(width, y1, y2 - 1);
    }
  }

  /** Byte k of pixel (x, y) in a raster of `height` rows.  It lies within
      row y, and so within the raster. */
  function Index(width: nat, height: nat, x: nat, y: nat, k: nat): (i: nat)
    requires x < width && y < height && k < 4
    ensures RowStart(width, y) <= i < RowStart(width, y + 1) <= RowStart(width, height)
  {
    RowStartSucc(width, y);
    RowStartMonotone(width, y + 1, height);
    RowStart(width, y) + 4 * x + k
  }

  /** Index is the offset (y * width + x) * 4 + k, and the last byte of every
      pixel of the frame lies below width * height * 4. */
  lemma IndexIsOffset(width: nat, height: nat, x: nat, y: nat, k: nat)
    requires x < width && y < height && k < 4
    ensures Index(width, height, x, y, k) == (y * width + x) * 4 + k
    ensures (y * width + x) * 4 + 3 < width * height * 4
    ensures RowStart(width, height) == width * height * 4
  {
    RowStartIsProduct(width, y);
    RowStartIsProduct(width, height);
    assert y * width * 4 + 4 * x + k == (y * width + x) * 4 + k;
    assert height * width * 4 == width * height * 4;
  }

  /** Byte k of the RGBA encoding of an opaque colour. */
  function PixelByte(c: Rgb, k: nat): byte
    requires InByteRange(c) && k < 4
  {
    if k == 0 then c.r as byte
    else if k == 1 then c.g as byte
    else if k == 2 then c.b as byte
    else 255
  }

  /** Copy the 4 * width bytes of row `srcRow` of `src` to row `dstRow` of `dst`;
      no other byte of `dst` changes. */
  method CopyRow(src: array<byte>, srcHeight: nat, srcRow: nat,
                 dst: array<byte>, dstHeight: nat, dstRow: nat, width: nat)
    requires src != dst
    requires src.Length == RowStart(width, srcHeight) && srcRow < srcHeight
    requires dst.Length == RowStart(width, dstHeight) && dstRow < dstHeight
    modifies dst
    ensures forall x, k :: 0 <= x < width && 0 <= k < 4 ==>
      dst[Index(width, dstHeight, x, dstRow, k)] == src[Index(width, srcHeight, x, srcRow, k)]
    ensures forall i :: 0 <= i < dst.Length && !(RowStart(width, dstRow) <= i < RowStart(width, dstRow + 1)) ==>
      dst[i] == old(dst[i])
  {
    RowStartSucc(width, dstRow);
    var x := 0;
    while x < width
      invariant x <= width
      invariant forall x', k :: 0 <= x' < x && 0 <= k < 4 ==>
        dst[Index(width, dstHeight, x', dstRow, k)] == src[Index(width, srcHeight, x', srcRow, k)]
      invariant forall i :: 0 <= i < dst.Length && !(RowStart(width, dstRow) <= i < RowStart(width, dstRow) + 4 * x) ==>
        dst[i] == old(dst[i])
    {
      var srcIndex := Index(width, srcHeight, x, srcRow, 0);
      var destIndex := Index(width, dstHeight, x, dstRow, 0);
      assert Index(width, dstHeight, x, dstRow, 3) == destIndex + 3;
      assert Index(width, srcHeight, x, srcRow, 3) == srcIndex + 3;
      dst[destIndex] := src[srcIndex];
      dst[destIndex + 1] := src[srcIndex + 1];
      dst[destIndex + 2] := src[srcIndex + 2];
      dst[destIndex + 3] := src[srcIndex + 3];
      x := x + 1;
    }
  }
}
