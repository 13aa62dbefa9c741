/** The card-specific data register: the driver's decoders, word by word, against the register's
    bit layout. */
module Csd {
  import opened Words
  import opened Powers

  const DFLT_BLKSIZE := 512

  /** A 136-bit response's four words, least significant first. */
  datatype Response = Response(w0: uint32, w1: uint32, w2: uint32, w3: uint32)

  /** The 128-bit register. */
  function Register(r: Response): nat {
    r.w0 + LIMIT32 * (r.w1 + LIMIT32 * (r.w2 + LIMIT32 * r.w3))
  }

  /** Bits `hi` down to `lo` of the register. */
  function Bits(reg: nat, hi: nat, lo: nat): nat
    requires lo <= hi
  {
    Field(reg, lo, hi - lo + 1)
  }

  datatype MmcCsd = MmcCsd(
    structure: nat, prot: nat, taac: nat, nsac: nat, tranSpeed: nat, ccc: nat,
    readBlLen: nat, readBlPartial: nat, writeBlkMisalign: nat, readBlkMisalign: nat, dsrImp: nat,
    cSize: nat, vddRCurrMin: nat, vddRCurrMax: nat, vddWCurrMin: nat, vddWCurrMax: nat, cSizeMult: nat,
    erase0: nat, erase1: nat, wpGrpSize: nat, wpGrpEnable: nat, r2wFactor: nat, writeBlLen: nat,
    writeBlPartial: nat, copy: nat, permWriteProtect: nat, tmpWriteProtect: nat, ecc: nat)

  datatype SdSize =
    | V1(cSize: nat, vddRCurrMin: nat, vddRCurrMax: nat, vddWCurrMin: nat, vddWCurrMax: nat, cSizeMult: nat)
    | V2(cSize: nat)

  datatype SdCsd = SdCsd(
    structure: nat, taac: nat, nsac: nat, tranSpeed: nat, ccc: nat,
    readBlLen: nat, readBlPartial: nat, writeBlkMisalign: nat, readBlkMisalign: nat, dsrImp: nat,
    size: SdSize, eraseBlkEn: nat, sectorSize: nat, wpGrpSize: nat, wpGrpEnable: nat, r2wFactor: nat,
    writeBlLen: nat, writeBlPartial: nat, fileFormatGrp: nat, copy: nat, permWriteProtect: nat,
    tmpWriteProtect: nat, fileFormat: nat)

  /** The MMC register's layout. The two erase fields are the sector and erase-group sizes up to
      structure 1 and the erase-group size and multiplier above; their bits are the same. */
  function MmcLayout(reg: nat): MmcCsd {
    MmcCsd(
      Bits(reg, 127, 126), Bits(reg, 125, 122), Bits(reg, 119, 112), Bits(reg, 111, 104), Bits(reg, 103, 96),
      Bits(reg, 95, 84), Bits(reg, 83, 80), Bits(reg, 79, 79), Bits(reg, 78, 78), Bits(reg, 77, 77), Bits(reg, 76, 76),
      Bits(reg, 73, 62), Bits(reg, 61, 59), Bits(reg, 58, 56), Bits(reg, 55, 53), Bits(reg, 52, 50), Bits(reg, 49, 47),
      Bits(reg, 46, 42), Bits(reg, 41, 37), Bits(reg, 36, 32), Bits(reg, 31, 31), Bits(reg, 28, 26), Bits(reg, 25, 22),
      Bits(reg, 21, 21), Bits(reg, 14, 14), Bits(reg, 13, 13), Bits(reg, 12, 12), Bits(reg, 9, 8))
  }

  /** The SD register's layout, sections 5.3.2 and 5.3.3 of the SD Physical Layer Simplified
      Specification: version 1 when the structure is 0, otherwise version 2. */
  function SdLayout(reg: nat): SdCsd {
    SdCsd(
      Bits(reg, 127, 126), Bits(reg, 119, 112), Bits(reg, 111, 104), Bits(reg, 103, 96),
      Bits(reg, 95, 84), Bits(reg, 83, 80), Bits(reg, 79, 79), Bits(reg, 78, 78), Bits(reg, 77, 77), Bits(reg, 76, 76),
      if Bits(reg, 127, 126) == 0
      then V1(Bits(reg, 73, 62), Bits(reg, 61, 59), Bits(reg, 58, 56), Bits(reg, 55, 53), Bits(reg, 52, 50),
              Bits(reg, 49, 47))
      else V2(Bits(reg, 69, 48)),
      Bits(reg, 46, 46), Bits(reg, 45, 39), Bits(reg, 38, 32), Bits(reg, 31, 31), Bits(reg, 28, 26), Bits(reg, 25, 22),
      Bits(reg, 21, 21), Bits(reg, 15, 15), Bits(reg, 14, 14), Bits(reg, 13, 13), Bits(reg, 12, 12), Bits(reg, 11, 10))
  }

  // ----- words and bits -----

  ghost function Word(r: Response, k: nat): uint32
    requires k < 4
  {
    if k == 0 then r.w0 else if k == 1 then r.w1 else if k == 2 then r.w2 else r.w3
  }

  /** A field inside one word is a slice of the register. */
  lemma InWord(r: Response, k: nat, shift: nat, width: nat)
    requires k < 4 && shift + width <= 32
    ensures Field(Register(r), 32 * k + shift, width) == Field(Word(r, k), shift, width)
  {
    hide Field, Pow2;
    Pow2Of32();
    var h1 := r.w1 + LIMIT32 * (r.w2 + LIMIT32 * r.w3);
    var h2 := r.w2 + LIMIT32 * r.w3;
    if k == 0 {
      FieldIgnoresHigh(r.w0, h1, 32, shift, width);
    } else {
      FieldAbove(r.w0, h1, 32, 32 * (k - 1) + shift, width);
      if k == 1 {
        FieldIgnoresHigh(r.w1, h2, 32, shift, width);
      } else {
        FieldAbove(r.w1, h2, 32, 32 * (k - 2) + shift, width);
        if k == 2 {
          FieldIgnoresHigh(r.w2, r.w3, 32, shift, width);
        } else {
          FieldAbove(r.w2, r.w3, 32, shift, width);
        }
      }
    }
  }

  /** A slice that starts in word `k` and ends in the next. */
  lemma AcrossWords(r: Response, k: nat, shift: nat, width: nat)
    requires k < 3 && shift < 32 < shift + width && shift + width <= 64
    ensures Field(Register(r), 32 * k + shift, width)
         == Field(Word(r, k + 1), 0, shift + width - 32) * Pow2(32 - shift) + Word(r, k) / Pow2(shift)
  {
    FieldConcat(Register(r), 32 * k + shift, 32 - shift, shift + width - 32);
    InWord(r, k, shift, 32 - shift);
    InWord(r, k + 1, 0, shift + width - 32);
    TopBits(Word(r, k), shift);
  }

  /** `w >> shift` needs no mask. */
  lemma TopBits(w: uint32, shift: nat)
    requires shift <= 32
    ensures w / Pow2(shift) == Field(w, shift, 32 - shift)
  {
    Pow2Of32();
    Pow2Sum(shift, 32 - shift);
    QuotientBelow(w, Pow2(shift), Pow2(32 - shift));
  }

  lemma QuotientBelow(w: nat, a: nat, b: nat)
    requires a > 0 && b > 0 && w < a * b
    ensures w / a < b && w / a % b == w / a
  {
    DivDiv(w, a, b);
    DivUnique(w, a * b, 0, w);
  }

  lemma FieldBelow(w: nat, shift: nat, width: nat)
    ensures Field(w, shift, width) < Pow2(width)
  {
  }

  /** `w >> n`. */
  function Shr(w: nat, n: nat): nat {
    QuotientNatural(w, Pow2(n));
    w / Pow2(n)
  }

  lemma QuotientNatural(w: nat, d: nat)
    requires d > 0
    ensures w / d >= 0
  {
  }

  /** `(high << n) | low` for a `low` of at most `n` bits. */
  function Join(high: nat, n: nat, low: nat): nat {
    high * Pow2(n) + low
  }

  // ----- capacity -----

  function BlockSize(blLen: nat): nat {
    if blLen > 9 then DFLT_BLKSIZE else Pow2(blLen)
  }

  /** The number of blocks, as an unbounded number. */
  function BlockCount(blLen: nat, csize: nat, csizeShift: nat): nat {
    csize * (if blLen > 9 then Pow2(blLen - 9) else 1) * Pow2(csizeShift)
  }

  function MmcBlockSize(csd: MmcCsd): nat {
    BlockSize(csd.readBlLen)
  }

  function MmcBlocks(csd: MmcCsd): nat {
    BlockCount(csd.readBlLen, csd.cSize + 1, csd.cSizeMult + 2)
  }

  function MmcBytes(csd: MmcCsd): nat {
    (csd.cSize + 1) * Pow2(csd.cSizeMult + 2) * Pow2(csd.readBlLen)
  }

  function SdBlocks(csd: SdCsd): nat {
    match csd.size
    case V1(cSize, _, _, _, _, cSizeMult) => BlockCount(csd.readBlLen, cSize + 1, cSizeMult + 2)
    case V2(cSize) => (cSize + 1) * 1024
  }

  function SdBytes(csd: SdCsd): nat {
    match csd.size
    case V1(cSize, _, _, _, _, cSizeMult) => (cSize + 1) * Pow2(cSizeMult + 2) * Pow2(csd.readBlLen)
    case V2(cSize) => (cSize + 1) * 0x8_0000
  }

  lemma Pow2Values()
    ensures Pow2(9) == DFLT_BLKSIZE && Pow2(10) == 1024 && Pow2(12) == 4096 && Pow2(15) == 0x8000
    ensures Pow2(16) == 0x1_0000 && Pow2(22) == 0x40_0000
  {
    assert Pow2(4) == 16 && Pow2(2) == 4 && Pow2(1) == 2;
    Pow2Sum(4, 4);
    Pow2Sum(8, 1);
    Pow2Sum(8, 2);
    Pow2Sum(8, 4);
    Pow2Sum(8, 8);
    Pow2Sum(12, 3);
    Pow2Sum(12, 10);
  }

  lemma Pow2Strict(a: nat, b: nat)
    requires a < b
    ensures Pow2(a) < Pow2(b)
  {
    Pow2Monotone(a, b - 1);
  }

  /** Forcing 512-byte blocks loses no capacity, for every block length. */
  lemma BlocksCoverCapacity(blLen: nat, csize: nat, csizeShift: nat)
    ensures BlockCount(blLen, csize, csizeShift) * BlockSize(blLen) == csize * Pow2(csizeShift) * Pow2(blLen)
  {
    if blLen > 9 {
      Pow2Values();
      Pow2Sum(blLen - 9, 9);
      Regroup(csize, Pow2(blLen - 9), Pow2(csizeShift), DFLT_BLKSIZE);
    }
  }

  lemma Regroup(a: nat, b: nat, c: nat, d: nat)
    ensures a * b * c * d == a * c * (b * d)
  {
    assert a * b * c == a * c * b;
    assert a * c * b * d == a * c * (b * d);
  }

  lemma BlockCountFits(blLen: nat, csize: nat, csizeShift: nat)
    requires blLen <= 15 && csize <= 4096 && csizeShift <= 9
    ensures var ts := if blLen > 9 then Pow2(blLen - 9) else 1;
      csize * ts < LIMIT32 && BlockCount(blLen, csize, csizeShift) == csize * ts * Pow2(csizeShift) < LIMIT32
  {
    Pow2Values();
    assert Pow2(6) == 64;
    var ts := if blLen > 9 then Pow2(blLen - 9) else 1;
    if blLen > 9 {
      Pow2Monotone(blLen - 9, 6);
    }
    Pow2Monotone(csizeShift, 9);
    MulBound(csize, ts, 4096, 64);
    MulBound(csize * ts, Pow2(csizeShift), 4096 * 64, 512);
  }

  lemma MulBound(a: nat, b: nat, x: nat, y: nat)
    requires a <= x && b <= y
    ensures a * b <= x * y
  {
    assert a * b <= x * b <= x * y;
  }

  /** MMC capacity, for every register: block count times block size is the register's capacity, the
      count fits 32 bits, and the blocks are 512 bytes exactly from READ_BL_LEN 9 on. */
  lemma MmcCapacity(reg: nat)
    ensures var csd := MmcLayout(reg);
      && MmcBlocks(csd) * MmcBlockSize(csd) == MmcBytes(csd)
      && MmcBlocks(csd) < LIMIT32
      && (MmcBlockSize(csd) == DFLT_BLKSIZE <==> csd.readBlLen >= 9)
  {
    hide MmcLayout;
    var csd := MmcLayout(reg);
    MmcRanges(reg);
    BlocksCoverCapacity(csd.readBlLen, csd.cSize + 1, csd.cSizeMult + 2);
    BlockCountFits(csd.readBlLen, csd.cSize + 1, csd.cSizeMult + 2);
    BlockSizeExactly(csd.readBlLen);
  }

  lemma BlockSizeExactly(blLen: nat)
    ensures BlockSize(blLen) == DFLT_BLKSIZE <==> blLen >= 9
  {
    Pow2Values();
    if blLen < 9 {
      Pow2Strict(blLen, 9);
    }
  }

  /** SD capacity, for every register: the 32-bit count of 512-byte blocks is the register's capacity
      exactly when a version 1 card has READ_BL_LEN of at least 9 and a version 2 card has not the
      largest C_SIZE. */
  lemma SdCapacityExactly(reg: nat)
    ensures var csd := SdLayout(reg);
      (SdBlocks(csd) % LIMIT32 * DFLT_BLKSIZE == SdBytes(csd))
        <==> if csd.size.V1? then csd.readBlLen >= 9 else csd.size.cSize != 0x3F_FFFF
  {
    hide SdLayout, BlockCount;
    var csd := SdLayout(reg);
    SdRanges(reg);
    if csd.size.V1? {
      SdVersion1Capacity(csd.readBlLen, csd.size.cSize + 1, csd.size.cSizeMult + 2);
    } else {
      SdVersion2Capacity(csd.size.cSize);
    }
  }

  lemma SdVersion2Capacity(cSize: nat)
    requires cSize <= 0x3F_FFFF
    ensures ((cSize + 1) * 1024 % LIMIT32 * DFLT_BLKSIZE == (cSize + 1) * 0x8_0000) <==> cSize != 0x3F_FFFF
  {
  }

  lemma SdVersion1Capacity(blLen: nat, csize: nat, csizeShift: nat)
    requires blLen <= 15 && 1 <= csize <= 4096 && csizeShift <= 9
    ensures var n := BlockCount(blLen, csize, csizeShift);
      n % LIMIT32 * DFLT_BLKSIZE == csize * Pow2(csizeShift) * Pow2(blLen) <==> blLen >= 9
  {
    hide BlockCount, BlockSize, Pow2;
    var n := BlockCount(blLen, csize, csizeShift);
    BlocksCoverCapacity(blLen, csize, csizeShift);
    BlockCountFits(blLen, csize, csizeShift);
    BlockCountPositive(blLen, csize, csizeShift);
    BlockSizeExactly(blLen);
    assert n % LIMIT32 == n;
    SameProduct(n, DFLT_BLKSIZE, BlockSize(blLen));
  }

  lemma BlockCountPositive(blLen: nat, csize: nat, csizeShift: nat)
    requires csize >= 1
    ensures BlockCount(blLen, csize, csizeShift) > 0
  {
    var ts := if blLen > 9 then Pow2(blLen - 9) else 1;
    MulAtLeast(csize, ts);
    MulAtLeast(csize * ts, Pow2(csizeShift));
  }

  lemma SameProduct(n: nat, a: nat, b: nat)
    requires n > 0
    ensures n * a == n * b <==> a == b
  {
    assert n * a - n * b == n * (a - b);
    if a > b {
      MulAtLeast(n, a - b);
    } else if a < b {
      MulAtLeast(n, b - a);
    }
  }

  lemma MmcRanges(reg: nat)
    ensures var csd := MmcLayout(reg); csd.readBlLen <= 15 && csd.cSize <= 4095 && csd.cSizeMult <= 7
  {
    Pow2Values();
    assert Pow2(4) == 16 && Pow2(3) == 8;
    FieldBelow(reg, 80, 4);
    FieldBelow(reg, 62, 12);
    FieldBelow(reg, 47, 3);
  }

  lemma SdRanges(reg: nat)
    ensures var csd := SdLayout(reg);
      && csd.readBlLen <= 15 && (csd.structure == 0 <==> csd.size.V1?)
      && (csd.size.V1? ==> csd.size.cSize <= 4095 && csd.size.cSizeMult <= 7)
      && (csd.size.V2? ==> csd.size.cSize <= 0x3F_FFFF)
  {
    Pow2Values();
    assert Pow2(4) == 16 && Pow2(3) == 8;
    FieldBelow(reg, 80, 4);
    FieldBelow(reg, 62, 12);
    FieldBelow(reg, 47, 3);
    FieldBelow(reg, 48, 22);
  }

  /** A field of a response word is a slice of the register. */
  lemma WordsAreSlices(r: Response)
    ensures forall s: nat, w: nat {:trigger Field(r.w0, s, w)} :: s + w <= 32 ==>
      Field(r.w0, s, w) == Field(Register(r), s, w)
    ensures forall s: nat, w: nat {:trigger Field(r.w1, s, w)} :: s + w <= 32 ==>
      Field(r.w1, s, w) == Field(Register(r), 32 + s, w)
    ensures forall s: nat, w: nat {:trigger Field(r.w2, s, w)} :: s + w <= 32 ==>
      Field(r.w2, s, w) == Field(Register(r), 64 + s, w)
    ensures forall s: nat, w: nat {:trigger Field(r.w3, s, w)} :: s + w <= 32 ==>
      Field(r.w3, s, w) == Field(Register(r), 96 + s, w)
  {
    forall s: nat, w: nat | s + w <= 32
      ensures Field(r.w0, s, w) == Field(Register(r), s, w) && Field(r.w1, s, w) == Field(Register(r), 32 + s, w)
      ensures Field(r.w2, s, w) == Field(Register(r), 64 + s, w) && Field(r.w3, s, w) == Field(Register(r), 96 + s, w)
    {
      InWord(r, 0, s, w);
      InWord(r, 1, s, w);
      InWord(r, 2, s, w);
      InWord(r, 3, s, w);
    }
  }

  /** The fields the decoders take without a mask, and C_SIZE, which spans two words. */
  lemma UnmaskedSlices(r: Response)
    ensures Shr(r.w3, 30) == Bits(Register(r), 127, 126) && Shr(r.w2, 20) == Bits(Register(r), 95, 84)
    ensures Shr(r.w0, 31) == Bits(Register(r), 31, 31)
    ensures Join(Field(r.w2, 0, 10), 2, Shr(r.w1, 30)) == Bits(Register(r), 73, 62)
    ensures Join(Field(r.w2, 0, 6), 16, Shr(r.w1, 16)) == Bits(Register(r), 69, 48)
  {
    hide Field, Pow2;
    TopBits(r.w3, 30);
    InWord(r, 3, 30, 2);
    TopBits(r.w2, 20);
    InWord(r, 2, 20, 12);
    TopBits(r.w0, 31);
    InWord(r, 0, 31, 1);
    AcrossWords(r, 1, 30, 12);
    AcrossWords(r, 1, 16, 22);
  }

  class Decoder {
    var mmc: MmcCsd
    var sd: SdCsd
    var writeProtected: bool
    var blksize: uint32
    var nlba: uint32

    method ParseMmc(r: Response)
      modifies this
      ensures mmc == MmcLayout(Register(r)) && sd == old(sd)
      ensures writeProtected <==> old(writeProtected) || mmc.permWriteProtect != 0 || mmc.tmpWriteProtect != 0
      ensures blksize == MmcBlockSize(mmc) && nlba == MmcBlocks(mmc)
    {
      hide Field, Register, Shr, Join;
      WordsAreSlices(r);
      UnmaskedSlices(r);
      mmc := MmcCsd(
        Shr(r.w3, 30), Field(r.w3, 26, 4), Field(r.w3, 16, 8), Field(r.w3, 8, 8), Field(r.w3, 0, 8),
        Shr(r.w2, 20), Field(r.w2, 16, 4), Field(r.w2, 15, 1), Field(r.w2, 14, 1), Field(r.w2, 13, 1),
        Field(r.w2, 12, 1),
        Join(Field(r.w2, 0, 10), 2, Shr(r.w1, 30)), Field(r.w1, 27, 3), Field(r.w1, 24, 3), Field(r.w1, 21, 3),
        Field(r.w1, 18, 3), Field(r.w1, 15, 3),
        Field(r.w1, 10, 5), Field(r.w1, 5, 5), Field(r.w1, 0, 5), Shr(r.w0, 31), Field(r.w0, 26, 3), Field(r.w0, 22, 4),
        Field(r.w0, 21, 1), Field(r.w0, 14, 1), Field(r.w0, 13, 1), Field(r.w0, 12, 1), Field(r.w0, 8, 2));
      if mmc.permWriteProtect != 0 || mmc.tmpWriteProtect != 0 {
        writeProtected := true;
      }
      MmcRanges(Register(r));
      blksize, nlba := Blocks(mmc.readBlLen, mmc.cSize + 1, mmc.cSizeMult + 2);
    }

    method ParseSd(r: Response)
      modifies this
      ensures sd == SdLayout(Register(r)) && mmc == old(mmc) && blksize == old(blksize)
      ensures writeProtected <==> old(writeProtected) || sd.permWriteProtect != 0 || sd.tmpWriteProtect != 0
      ensures nlba == SdBlocks(sd) % LIMIT32
    {
      hide Field, Register, Shr, Join;
      WordsAreSlices(r);
      UnmaskedSlices(r);
      var structure := Shr(r.w3, 30);
      var size :=
        if structure == 0
        then V1(Join(Field(r.w2, 0, 10), 2, Shr(r.w1, 30)), Field(r.w1, 27, 3), Field(r.w1, 24, 3), Field(r.w1, 21, 3),
                Field(r.w1, 18, 3), Field(r.w1, 15, 3))
        else V2(Join(Field(r.w2, 0, 6), 16, Shr(r.w1, 16)));
      sd := SdCsd(
        structure, Field(r.w3, 16, 8), Field(r.w3, 8, 8), Field(r.w3, 0, 8),
        Shr(r.w2, 20), Field(r.w2, 16, 4), Field(r.w2, 15, 1), Field(r.w2, 14, 1), Field(r.w2, 13, 1),
        Field(r.w2, 12, 1),
        size, Field(r.w1, 14, 1), Field(r.w1, 7, 7), Field(r.w1, 0, 7), Shr(r.w0, 31), Field(r.w0, 26, 3),
        Field(r.w0, 22, 4),
        Field(r.w0, 21, 1), Field(r.w0, 15, 1), Field(r.w0, 14, 1), Field(r.w0, 13, 1), Field(r.w0, 12, 1),
        Field(r.w0, 10, 2));
      if sd.permWriteProtect != 0 || sd.tmpWriteProtect != 0 {
        writeProtected := true;
      }
      SdRanges(Register(r));
      if sd.structure == 0 {
        var size, blocks := Blocks(sd.readBlLen, sd.size.cSize + 1, sd.size.cSizeMult + 2);
        nlba := blocks;
      } else {
        nlba := (sd.size.cSize + 1) * 1024 % LIMIT32;
      }
    }
  }

  lemma BlockPowers(blLen: nat, csizeShift: nat)
    requires blLen <= 15 && csizeShift <= 9
    ensures Pow2(blLen) <= 0x8000 && Pow2(csizeShift) <= DFLT_BLKSIZE
    ensures Pow2(blLen) > DFLT_BLKSIZE <==> blLen > 9
    ensures blLen > 9 ==> Pow2(blLen) % DFLT_BLKSIZE == 0 && Pow2(blLen) / DFLT_BLKSIZE == Pow2(blLen - 9)
    ensures blLen > 9 ==> Pow2(blLen) / Pow2(blLen - 9) == DFLT_BLKSIZE
  {
    Pow2Values();
    Pow2Monotone(blLen, 15);
    Pow2Monotone(csizeShift, 9);
    if blLen > 9 {
      Pow2Strict(9, blLen);
      Pow2Sum(blLen - 9, 9);
      DivUnique(Pow2(blLen), DFLT_BLKSIZE, Pow2(blLen - 9), 0);
      DivUnique(Pow2(blLen), Pow2(blLen - 9), DFLT_BLKSIZE, 0);
    } else {
      Pow2Monotone(blLen, 9);
    }
  }

  /** A product in 32 bits. */
  function Mul32(a: nat, b: nat): uint32 {
    a * b % LIMIT32
  }

  lemma Mul32Fits(a: nat, b: nat)
    ensures a * b < LIMIT32 ==> Mul32(a, b) == a * b
  {
  }

  /** The shared tail of both decoders, forcing 512-byte blocks. Every product is taken in 32 bits. */
  method Blocks(blLen: nat, csize: nat, csizeShift: nat) returns (bsize: uint32, nlba: uint32)
    requires blLen <= 15 && 1 <= csize <= 4096 && csizeShift <= 9
    ensures bsize == BlockSize(blLen) && nlba == BlockCount(blLen, csize, csizeShift)
  {
    hide Pow2, Mul32;
    BlockPowers(blLen, csizeShift);
    BlockCountFits(blLen, csize, csizeShift);
    bsize := Pow2(blLen);
    var count, csizem := csize, Pow2(csizeShift);
    if bsize > DFLT_BLKSIZE && bsize % DFLT_BLKSIZE == 0 {
      var ts := bsize / DFLT_BLKSIZE;
      Mul32Fits(count, ts);
      count := Mul32(count, ts);
      bsize := bsize / ts;
    }
    Mul32Fits(count, csizem);
    nlba := Mul32(count, csizem);
  }
}
