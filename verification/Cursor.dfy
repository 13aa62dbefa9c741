/** The hardware cursor image: two one-bit-per-pixel bitmaps packed into 64 by 64 two-bit pixels. */
module Cursor {
  const CURSOR_SZ := 64

  /** The mask of the `k`-th pixel of a bitmap byte, leftmost first. */
  function BitMask(k: nat): bv8
    requires k < 8
  {
    if k == 0 then 0x80 else if k == 1 then 0x40 else if k == 2 then 0x20 else if k == 3 then 0x10
    else if k == 4 then 0x08 else if k == 5 then 0x04 else if k == 6 then 0x02 else 0x01
  }

  /** The shift of the `k`-th pixel of a cursor byte. */
  function Offset(k: nat): bv8
    requires k < 4
  {
    if k == 0 then 0 else if k == 1 then 2 else if k == 2 then 4 else 6
  }

  /** The two-bit pixel at a shift. */
  function Pixel(b: bv8, off: bv8): bv8
    requires off <= 6
  {
    (b >> off) & 3
  }

  /** Clears a pixel, then sets it. */
  function Insert(b: bv8, off: bv8, code: bv8): bv8
    requires off <= 6
  {
    (b & !(3 << off)) | (code << off)
  }

  lemma InsertSets(b: bv8, k: nat, code: bv8)
    requires k < 4 && code <= 3
    ensures Pixel(Insert(b, Offset(k), code), Offset(k)) == code
    ensures forall j: nat :: j < 4 && j != k ==> Pixel(Insert(b, Offset(k), code), Offset(j)) == Pixel(b, Offset(j))
  {
  }

  lemma NextMask(k: nat)
    requires k < 8
    ensures BitMask(k) >> 1 == if k == 7 then 0 else BitMask(k + 1)
    ensures BitMask(k) != 0
  {
  }

  predicate Inside(x: int, y: int, sizeX: int, sizeY: int) {
    0 <= x < sizeX && 0 <= y < sizeY
  }

  /** Whether the image holds the byte of every pixel inside the size. */
  ghost predicate HoldsImage(bmp: seq<bv8>, stride: int, sizeX: int, sizeY: int) {
    forall x, y :: Inside(x, y, sizeX, sizeY) ==> 0 <= y * stride + x / 8 < |bmp|
  }

  ghost predicate BitSet(bmp: seq<bv8>, stride: int, x: int, y: int)
    requires x >= 0 && 0 <= y * stride + x / 8 < |bmp|
  {
    bmp[y * stride + x / 8] & BitMask(x % 8) != 0
  }

  /** The pixel the bitmaps call for: the second bitmap wins over the first; outside is transparent. */
  ghost function Code(bmp0: seq<bv8>, bmp1: seq<bv8>, stride: int, sizeX: int, sizeY: int, x: int, y: int): bv8
    requires HoldsImage(bmp0, stride, sizeX, sizeY) && HoldsImage(bmp1, stride, sizeX, sizeY)
  {
    if !Inside(x, y, sizeX, sizeY) then 0
    else if BitSet(bmp1, stride, x, y) then 3
    else if BitSet(bmp0, stride, x, y) then 2
    else 0
  }

  /** The cursor's pixel at (x, y). */
  ghost function PixelAt(cursor: seq<bv8>, x: nat, y: nat): bv8
    requires x < CURSOR_SZ && y < CURSOR_SZ && |cursor| == 1024
  {
    Pixel(cursor[(y * CURSOR_SZ + x) / 4], Offset(x % 4))
  }

  /** The byte of four neighbouring pixels: the leftmost in the lowest two bits. */
  function Packed(p0: bv8, p1: bv8, p2: bv8, p3: bv8): bv8 {
    p0 | (p1 << 2) | (p2 << 4) | (p3 << 6)
  }

  lemma PackedPixels(b: bv8)
    ensures b == Packed(Pixel(b, Offset(0)), Pixel(b, Offset(1)), Pixel(b, Offset(2)), Pixel(b, Offset(3)))
  {
  }

  lemma PackedByte(cursor: seq<bv8>, y: nat, q: nat)
    requires |cursor| == 1024 && y < CURSOR_SZ && q < 16
    ensures cursor[y * 16 + q] == Packed(PixelAt(cursor, 4 * q, y), PixelAt(cursor, 4 * q + 1, y),
                                         PixelAt(cursor, 4 * q + 2, y), PixelAt(cursor, 4 * q + 3, y))
  {
    hide Pixel, Packed, Offset;
    Quarters(y * 16 + q, 0);
    Quarters(y * 16 + q, 1);
    Quarters(y * 16 + q, 2);
    Quarters(y * 16 + q, 3);
    PackedPixels(cursor[y * 16 + q]);
  }

  /** Every byte of the cursor is that of the four pixels the bitmaps call for. */
  ghost predicate Shows(cursor: seq<bv8>, bmp0: seq<bv8>, bmp1: seq<bv8>, stride: int, sizeX: int, sizeY: int)
    requires |cursor| == 1024
    requires HoldsImage(bmp0, stride, sizeX, sizeY) && HoldsImage(bmp1, stride, sizeX, sizeY)
  {
    forall y, q :: 0 <= y < CURSOR_SZ && 0 <= q < 16 ==>
      cursor[y * 16 + q] == Packed(Code(bmp0, bmp1, stride, sizeX, sizeY, 4 * q, y),
                                   Code(bmp0, bmp1, stride, sizeX, sizeY, 4 * q + 1, y),
                                   Code(bmp0, bmp1, stride, sizeX, sizeY, 4 * q + 2, y),
                                   Code(bmp0, bmp1, stride, sizeX, sizeY, 4 * q + 3, y))
  }

  lemma PixelsShow(cursor: seq<bv8>, bmp0: seq<bv8>, bmp1: seq<bv8>, stride: int, sizeX: int, sizeY: int)
    requires |cursor| == 1024
    requires HoldsImage(bmp0, stride, sizeX, sizeY) && HoldsImage(bmp1, stride, sizeX, sizeY)
    requires forall x, y :: 0 <= x < CURSOR_SZ && 0 <= y < CURSOR_SZ ==>
      PixelAt(cursor, x, y) == Code(bmp0, bmp1, stride, sizeX, sizeY, x, y)
    ensures Shows(cursor, bmp0, bmp1, stride, sizeX, sizeY)
  {
    hide PixelAt, Code, HoldsImage, Packed;
    forall y, q | 0 <= y < CURSOR_SZ && 0 <= q < 16
      ensures cursor[y * 16 + q] == Packed(Code(bmp0, bmp1, stride, sizeX, sizeY, 4 * q, y),
                                           Code(bmp0, bmp1, stride, sizeX, sizeY, 4 * q + 1, y),
                                           Code(bmp0, bmp1, stride, sizeX, sizeY, 4 * q + 2, y),
                                           Code(bmp0, bmp1, stride, sizeX, sizeY, 4 * q + 3, y))
    {
      PackedByte(cursor, y, q);
    }
  }

  /** Packs the image; -1 and no change for an oversized one. No bitmap byte outside the image is read. */
  method SetHwCursor(cursor: array<bv8>, bmp0: seq<bv8>, bmp1: seq<bv8>, sizeX: int, sizeY: int, stride: int)
    returns (status: int)
    requires cursor.Length == 1024
    requires sizeX <= 64 && sizeY <= 64 ==>
      HoldsImage(bmp0, stride, sizeX, sizeY) && HoldsImage(bmp1, stride, sizeX, sizeY)
    modifies cursor
    ensures status == if sizeX > 64 || sizeY > 64 then -1 else 0
    ensures status == -1 ==> cursor[..] == old(cursor[..])
    ensures status == 0 ==> forall x, y :: 0 <= x < CURSOR_SZ && 0 <= y < CURSOR_SZ ==>
      PixelAt(cursor[..], x, y) == Code(bmp0, bmp1, stride, sizeX, sizeY, x, y)
    ensures status == 0 ==> Shows(cursor[..], bmp0, bmp1, stride, sizeX, sizeY)
  {
    hide PixelAt, Code, HoldsImage, Shows;
    if sizeX > 64 || sizeY > 64 {
      return -1;
    }
    for y := 0 to CURSOR_SZ
      invariant forall x', y' :: 0 <= x' < CURSOR_SZ && 0 <= y' < y ==>
        PixelAt(cursor[..], x', y') == Code(bmp0, bmp1, stride, sizeX, sizeY, x', y')
    {
      var byte, bit: bv8 := y * stride, 0x80;
      for x := 0 to CURSOR_SZ
        invariant byte == y * stride + x / 8 && bit == BitMask(x % 8)
        invariant forall x', y' :: 0 <= x' < CURSOR_SZ && 0 <= y' <= y && (y' < y || x' < x) ==>
          PixelAt(cursor[..], x', y') == Code(bmp0, bmp1, stride, sizeX, sizeY, x', y')
      {
        CodeCases(bmp0, bmp1, stride, sizeX, sizeY, x, y);
        var code: bv8 := 0;
        if y < sizeY && x < sizeX {
          if bmp0[byte] & bit != 0 {
            code := 2;
          }
          if bmp1[byte] & bit != 0 {
            code := 3;
          }
        }
        SetPixel(cursor, x, y, code);
        bit, byte := NextBit(bit, byte, x);
      }
    }
    PixelsShow(cursor[..], bmp0, bmp1, stride, sizeX, sizeY);
    return 0;
  }

  lemma CodeCases(bmp0: seq<bv8>, bmp1: seq<bv8>, stride: int, sizeX: int, sizeY: int, x: nat, y: nat)
    requires HoldsImage(bmp0, stride, sizeX, sizeY) && HoldsImage(bmp1, stride, sizeX, sizeY)
    ensures !Inside(x, y, sizeX, sizeY) ==> Code(bmp0, bmp1, stride, sizeX, sizeY, x, y) == 0
    ensures Inside(x, y, sizeX, sizeY) ==>
      && 0 <= y * stride + x / 8 < |bmp0| && y * stride + x / 8 < |bmp1|
      && Code(bmp0, bmp1, stride, sizeX, sizeY, x, y)
         == if bmp1[y * stride + x / 8] & BitMask(x % 8) != 0 then 3
            else if bmp0[y * stride + x / 8] & BitMask(x % 8) != 0 then 2 else 0
  {
  }

  /** Steps the bitmap cursor past pixel `x`. */
  method NextBit(bit0: bv8, byte0: int, x: nat) returns (bit: bv8, byte: int)
    requires bit0 == BitMask(x % 8)
    ensures bit == BitMask((x + 1) % 8) && byte == byte0 + (x + 1) / 8 - x / 8
  {
    NextMask(x % 8);
    bit, byte := bit0 >> 1, byte0;
    if bit == 0 {
      bit := 0x80;
      byte := byte + 1;
    }
  }

  lemma Quarters(n: nat, r: nat)
    requires r < 4
    ensures (4 * n + r) / 4 == n
  {
  }

  /** A pixel's byte and place in it are its own. */
  lemma OwnPlace(x: nat, y: nat, x': nat, y': nat)
    requires x < CURSOR_SZ && x' < CURSOR_SZ
    ensures (y * CURSOR_SZ + x) / 4 == (y' * CURSOR_SZ + x') / 4 && x % 4 == x' % 4 ==> x == x' && y == y'
  {
    var q, r, q', r' := x / 4, x % 4, x' / 4, x' % 4;
    assert x == 4 * q + r && x' == 4 * q' + r' && q < 16 && q' < 16;
    Quarters(y * 16 + q, r);
    Quarters(y' * 16 + q', r');
    assert y * CURSOR_SZ + x == 4 * (y * 16 + q) + r && y' * CURSOR_SZ + x' == 4 * (y' * 16 + q') + r';
  }

  /** Inserting one pixel leaves the others. */
  lemma InsertPixel(c: seq<bv8>, x: nat, y: nat, code: bv8, x': nat, y': nat)
    requires |c| == 1024 && x < CURSOR_SZ && y < CURSOR_SZ && x' < CURSOR_SZ && y' < CURSOR_SZ && code <= 3
    ensures var i := (y * CURSOR_SZ + x) / 4;
      PixelAt(c[i := Insert(c[i], Offset(x % 4), code)], x', y')
        == if x' == x && y' == y then code else PixelAt(c, x', y')
  {
    hide Pixel, Insert, Offset;
    OwnPlace(x, y, x', y');
    InsertSets(c[(y * CURSOR_SZ + x) / 4], x % 4, code);
  }

  method SetPixel(cursor: array<bv8>, x: nat, y: nat, code: bv8)
    requires cursor.Length == 1024 && x < CURSOR_SZ && y < CURSOR_SZ && code <= 3
    modifies cursor
    ensures PixelAt(cursor[..], x, y) == code
    ensures forall x': nat, y': nat :: x' < CURSOR_SZ && y' < CURSOR_SZ && (x' != x || y' != y) ==>
      PixelAt(cursor[..], x', y') == old(PixelAt(cursor[..], x', y'))
  {
    hide Pixel, Insert, PixelAt;
    var i := (y * CURSOR_SZ + x) / 4;
    ghost var was := cursor[..];
    cursor[i] := Insert(cursor[i], Offset(x % 4), code);
    assert cursor[..] == was[i := Insert(was[i], Offset(x % 4), code)];
    forall x': nat, y': nat | x' < CURSOR_SZ && y' < CURSOR_SZ
      ensures PixelAt(cursor[..], x', y') == if x' == x && y' == y then code else PixelAt(was, x', y')
    {
      InsertPixel(was, x, y, code, x', y');
    }
  }
}
