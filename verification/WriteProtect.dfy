/** The two write-protect loops, one per driver, with the C arithmetic of their counters. */
module WriteProtect {
  import opened Words
  import opened Powers
  import opened BitAnd

  const MMC_SET_WRITE_PROT := 28
  const MMC_CLR_WRITE_PROT := 29

  datatype Cmd = Cmd(opcode: nat, argument: uint32)

  datatype Status = Success | Failed | NotSupported | Invalid

  /** `CAM_ALIGN(val, align)` on 32-bit operands: `(val + (align - 1)) & ~(align - 1)`. */
  function CamAlign(val: uint32, align: uint32): nat {
    var mask := Dec32(align);
    And((val + mask) % LIMIT32, LIMIT32 - 1 - mask)
  }

  function Max(a: int, b: int): int {
    if a < b then b else a
  }

  /** The block count the MMC loop starts from. */
  function Aligned(nlba: uint32, g: uint32): nat {
    CamAlign(Max(nlba, g), g)
  }

  function CeilDiv(n: nat, g: nat): nat
    requires g > 0
  {
    (n + g - 1) / g
  }

  /** The commands for `count` consecutive groups of `g` blocks from `lba`, in 32 bits. An address is
      a block number times `scale`. */
  function Groups(opcode: nat, lba: uint32, g: uint32, scale: uint32, count: nat): seq<Cmd> {
    seq(count, k requires 0 <= k => Cmd(opcode, Lba(lba, g, k) * scale % LIMIT32))
  }

  /** Subtracting `g` `m` times, in 32 bits, brings `n` to zero. */
  ghost predicate Solves(g: uint32, n: nat, m: nat) {
    m * g % LIMIT32 == n % LIMIT32
  }

  /** The number of rounds of `while (n) n -= g`. */
  ghost predicate Rounds(g: uint32, n: nat, m: nat) {
    Solves(g, n, m) && forall j :: 0 <= j < m ==> !Solves(g, n, j)
  }

  // ----- the MMC loop always ends -----

  /** An odd number can be solved for modulo every power of two. */
  lemma {:induction false} SolveOdd(odd: nat, c: nat, s: nat) returns (k: nat)
    requires odd % 2 == 1
    ensures (k * odd - c) % Pow2(s) == 0
    decreases s
  {
    if s == 0 {
      return 0;
    }
    k := SolveOdd(odd, c, s - 1);
    k := LiftSolution(k, odd, c, Pow2(s - 1));
  }

  /** From a solution modulo `p` to one modulo `2 * p`. */
  lemma LiftSolution(k: nat, odd: nat, c: nat, p: nat) returns (k': nat)
    requires odd % 2 == 1 && p > 0 && (k * odd - c) % p == 0
    ensures (k' * odd - c) % (2 * p) == 0
  {
    var q := (k * odd - c) / p;
    Exact(k * odd - c, p);
    if q % 2 == 1 {
      Lift(k, odd, c, q, p);
      return k + p;
    }
    LiftEven(k * odd - c, q, p);
    return k;
  }

  lemma Exact(x: int, p: nat)
    requires p > 0 && x % p == 0
    ensures x == x / p * p
  {
  }

  lemma LiftEven(x: int, q: int, p: nat)
    requires p > 0 && x == q * p && q % 2 == 0
    ensures x % (2 * p) == 0
  {
    var h := q / 2;
    assert q == 2 * h;
    assert x == h * (2 * p);
    MultipleMod(h, 2 * p);
  }

  lemma Lift(k: nat, odd: nat, c: nat, q: int, p: nat)
    requires k * odd - c == q * p && q % 2 == 1 && odd % 2 == 1 && p > 0
    ensures ((k + p) * odd - c) % (2 * p) == 0
  {
    var h := (q + odd) / 2;
    assert q + odd == 2 * h;
    assert (k + p) * odd - c == q * p + p * odd == (q + odd) * p == h * (2 * p);
    MultipleMod(h, 2 * p);
  }

  lemma MultipleMod(h: int, d: nat)
    requires d > 0
    ensures h * d % d == 0
  {
    DivUnique(h * d, d, h, 0);
  }

  /** A positive number is an odd number times a power of two. */
  lemma {:induction false} OddPart(g: nat) returns (odd: nat, t: nat)
    requires g > 0
    ensures odd % 2 == 1 && g == odd * Pow2(t) && Pow2(t) <= g
  {
    if g % 2 == 1 {
      return g, 0;
    }
    odd, t := OddPart(g / 2);
    t := t + 1;
    assert g == 2 * (odd * Pow2(t - 1)) == odd * (2 * Pow2(t - 1));
  }

  /** The aligned count is a multiple of the largest power of two in the group size. */
  lemma AlignedMultiple(val: uint32, g: uint32, odd: nat, t: nat)
    requires g > 0 && g == odd * Pow2(t) && t <= 32
    ensures CamAlign(val, g) % Pow2(t) == 0
  {
    hide And;
    Pow2Of32();
    Pow2Sum(t, 32 - t);
    LowPart(Pow2(32 - t), odd, Pow2(t));
    LowClearIsMultiple(LIMIT32 - g, t);
    AndLowClear((val + g - 1) % LIMIT32, LIMIT32 - g, t);
    LowClearIsMultiple(CamAlign(val, g), t);
  }

  lemma LowPart(high: nat, odd: nat, p: nat)
    requires p > 0
    ensures (p * high - odd * p) % p == 0
  {
    assert p * high - odd * p == (high - odd) * p;
    MultipleMod(high - odd, p);
  }

  /** Whatever the group size, the MMC loop's counter reaches zero. */
  lemma AlwaysEnds(val: uint32, g: uint32) returns (m: nat)
    requires g > 0
    ensures Solves(g, CamAlign(val, g), m)
  {
    Pow2Of32();
    var n := CamAlign(val, g);
    var odd, t := OddPart(g);
    assert t <= 32 by {
      if t > 32 {
        Pow2Monotone(32, t);
      }
    }
    AlignedMultiple(val, g, odd, t);
    var c := n / Pow2(t);
    m := SolveOdd(odd, c, 32 - t);
    ScaleSolution(m, odd, c, Pow2(t), Pow2(32 - t));
    Pow2Sum(t, 32 - t);
    Exact(n, Pow2(t));
    DifferenceMultiple(m * g, n, LIMIT32);
  }

  lemma ScaleSolution(m: nat, odd: nat, c: nat, a: nat, b: nat)
    requires a > 0 && b > 0 && (m * odd - c) % b == 0
    ensures (m * (odd * a) - c * a) % (a * b) == 0
  {
    var q := (m * odd - c) / b;
    Exact(m * odd - c, b);
    assert m * (odd * a) - c * a == (m * odd - c) * a == (q * b) * a == q * (a * b);
    MulAtLeast(a, b);
    MultipleMod(q, a * b);
  }

  /** Numbers whose difference is a multiple have the same remainder. */
  lemma DifferenceMultiple(x: int, y: int, d: nat)
    requires d > 0 && (x - y) % d == 0
    ensures x % d == y % d
  {
    var q := (x - y) / d;
    Exact(x - y, d);
    assert x == (y / d + q) * d + y % d;
    DivUnique(x, d, y / d + q, y % d);
  }

  // ----- when the MMC loop covers the range -----

  /** For a power of two, aligning rounds up to the next multiple. */
  lemma AlignRoundsUp(val: uint32, g: uint32)
    requires g > 0 && PowerOfTwo(g) && val + g <= LIMIT32
    ensures CamAlign(val, g) == CeilDiv(val, g) * g
  {
    hide And;
    Pow2Of32();
    var k := Exponent(g);
    AndClearsLow(val + g - 1, 32, k);
    RoundDown(val + g - 1, g);
  }

  lemma Exponent(g: uint32) returns (k: nat)
    requires PowerOfTwo(g)
    ensures k <= 32 && g == Pow2(k)
  {
    k :| g == Pow2(k);
    Pow2Of32();
    if k > 32 {
      Pow2Monotone(32, k);
    }
  }

  lemma RoundDown(x: nat, g: nat)
    requires g > 0
    ensures x - x % g == x / g * g && (x - x % g) % g == 0
  {
    MultipleMod(x / g, g);
  }

  /** For any other group size, aligning the group size itself does not give back one group. */
  lemma AlignMisses(g: uint32)
    requires g > 0 && !PowerOfTwo(g) && 2 * g <= LIMIT32
    ensures CamAlign(g, g) != g
  {
    Pow2Of32();
    AndComplement(g - 1, 32);
    AndOfAnd(2 * g - 1, LIMIT32 - g, g - 1);
    PowerOfTwoTest(g);
  }

  /** The MMC count is the number of blocks in the fewest groups covering the request, for every
      request that does not wrap, exactly when the group size is a power of two. */
  lemma CoversExactly(g: uint32)
    requires g > 0 && 2 * g <= LIMIT32
    ensures (forall n: uint32 {:trigger Aligned(n, g)} :: n > 0 && n + g <= LIMIT32 ==>
      Aligned(n, g) == CeilDiv(n, g) * g)
      <==> PowerOfTwo(g)
  {
    if PowerOfTwo(g) {
      forall n: uint32 | n > 0 && n + g <= LIMIT32 ensures Aligned(n, g) == CeilDiv(n, g) * g {
        AlignRoundsUp(Max(n, g), g);
        if n < g {
          DivUnique(n + g - 1, g, 1, n - 1);
          DivUnique(g + g - 1, g, 1, g - 1);
        }
      }
    } else {
      AlignMisses(g);
      DivUnique(g + g - 1, g, 1, g - 1);
      assert Aligned(g, g) != CeilDiv(g, g) * g;
    }
  }

  /** A count that is `c` whole groups takes `c` rounds. */
  lemma RoundsOfMultiple(g: uint32, c: nat)
    requires g > 0 && c * g < LIMIT32
    ensures Rounds(g, c * g, c)
  {
    forall j | 0 <= j < c ensures !Solves(g, c * g, j) {
      MulAtLeast(c - j, g);
      assert (c - j) * g == c * g - j * g;
    }
  }

  lemma RoundsUnique(g: uint32, n: nat, m: nat, m': nat)
    requires Rounds(g, n, m) && Rounds(g, n, m')
    ensures m == m'
  {
  }

  lemma {:induction false} FewestRounds(g: uint32, n: nat, m: nat, from: nat) returns (least: nat)
    requires Solves(g, n, m) && from <= m && forall j :: 0 <= j < from ==> !Solves(g, n, j)
    ensures Rounds(g, n, least)
    decreases m - from
  {
    if Solves(g, n, from) {
      return from;
    }
    least := FewestRounds(g, n, m, from + 1);
  }

  lemma RoundsExist(val: uint32, g: uint32) returns (m: nat)
    ensures Rounds(g, CamAlign(val, g), m)
  {
    if g == 0 {
      m := 0;
    } else {
      m := AlwaysEnds(val, g);
      m := FewestRounds(g, CamAlign(val, g), m, 0);
    }
  }

  // ----- the two loops -----

  /** What a driver whose `k`-th command answers `ok(k)` issues of `all`: up to the first failure. */
  function Issued(all: seq<Cmd>, ok: nat -> bool, from: nat): seq<Cmd>
    requires from <= |all|
    decreases |all| - from
  {
    if from == |all| then [] else [all[from]] + if ok(from) then Issued(all, ok, from + 1) else []
  }

  ghost predicate AllOk(ok: nat -> bool, count: nat) {
    forall k: nat :: k < count ==> ok(k)
  }

  /** The loop variables after `i` rounds. */
  function Lba(lba: uint32, g: uint32, i: nat): uint32 {
    (lba + i * g) % LIMIT32
  }

  function Left(n: uint32, g: uint32, i: nat): uint32 {
    (n - i * g) % LIMIT32
  }

  function LeftAbove(n: uint32, g: uint32, i: nat): uint32 {
    Max(0, n - i * g)
  }

  lemma StepDown(n: uint32, g: uint32, i: nat)
    ensures (Left(n, g, i) - g) % LIMIT32 == Left(n, g, i + 1) && Left(n, g, 0) == n
    ensures Left(n, g, i) == 0 <==> Solves(g, n, i)
  {
    assert (i + 1) * g == i * g + g;
    var q := (n - i * g) / LIMIT32;
    assert n - i * g == q * LIMIT32 + (n - i * g) % LIMIT32;
  }

  lemma StepUp(lba: uint32, g: uint32, i: nat)
    ensures (Lba(lba, g, i) + g) % LIMIT32 == Lba(lba, g, i + 1) && Lba(lba, g, 0) == lba
  {
    OneGroupMore(i, g);
    WrapSum(lba + i * g, g);
  }

  lemma OneGroupMore(i: nat, g: nat)
    ensures (i + 1) * g == i * g + g
  {
  }

  lemma WrapSum(a: nat, g: nat)
    ensures (a % LIMIT32 + g) % LIMIT32 == (a + g) % LIMIT32
  {
  }

  /** What the MMC driver answers and issues: the groups of as many rounds as its counter takes. */
  ghost predicate MmcIssues(opcode: nat, lba: uint32, nlba: uint32, g: uint32, ok: nat -> bool,
                            status: Status, issued: seq<Cmd>) {
    exists m: nat ::
      && Rounds(g, Aligned(nlba, g), m)
      && status == (if AllOk(ok, m) then Success else Failed)
      && issued == Issued(Groups(opcode, lba, g, 1, m), ok, 0)
  }

  /** What the SDIO driver answers and issues: the fewest groups that cover the request. */
  ghost predicate SdmmcIssues(opcode: nat, lba: uint32, nlba: uint32, g: uint32, scale: uint32, ok: nat -> bool,
                              status: Status, issued: seq<Cmd>)
    requires g > 0
  {
    && status == (if AllOk(ok, CeilDiv(nlba, g)) then Success else Failed)
    && issued == Issued(Groups(opcode, lba, g, scale, CeilDiv(nlba, g)), ok, 0)
  }

  /** The MMC driver. `wpGrp` and `eraseGrp` are the card's group-size bytes. */
  method MmcWriteProtect(protect: bool, lba0: uint32, nlba0: uint32, wpGrp: uint8, eraseGrp: uint8, ok: nat -> bool)
    returns (status: Status, issued: seq<Cmd>)
    ensures 0 <= wpGrp * eraseGrp * 1024 < LIMIT32
    ensures MmcIssues(if protect then 28 else 29, lba0, nlba0, wpGrp * eraseGrp * 1024, ok, status, issued)
  {
    GroupSize(wpGrp, eraseGrp);
    var g: uint32 := wpGrp * eraseGrp * 0x8_0000 / 512;
    var lba, nlba := lba0, nlba0;
    if nlba < g {
      nlba := g;
    }
    AlignedFits(nlba, g);
    ghost var m := RoundsExist(nlba, g);
    nlba := CamAlign(nlba, g);
    status, issued := MmcLoop(if protect then MMC_SET_WRITE_PROT else MMC_CLR_WRITE_PROT, lba, nlba, g, ok, m);
  }

  lemma GroupSize(wpGrp: uint8, eraseGrp: uint8)
    ensures 0 <= wpGrp * eraseGrp * 0x8_0000 / 512 == wpGrp * eraseGrp * 1024 < LIMIT32
  {
    assert wpGrp * eraseGrp <= 255 * eraseGrp <= 255 * 255;
  }

  lemma {:induction false} AndAtMost(a: nat, b: nat)
    ensures And(a, b) <= a
  {
    if a != 0 && b != 0 {
      AndAtMost(a / 2, b / 2);
    }
  }

  lemma AlignedFits(val: uint32, g: uint32)
    ensures CamAlign(val, g) < LIMIT32
  {
    AndAtMost((val + Dec32(g)) % LIMIT32, LIMIT32 - 1 - Dec32(g));
  }

  method MmcLoop(opcode: nat, lba0: uint32, nlba0: uint32, g: uint32, ok: nat -> bool, ghost m: nat)
    returns (status: Status, issued: seq<Cmd>)
    requires Rounds(g, nlba0, m)
    ensures status == (if AllOk(ok, m) then Success else Failed)
    ensures issued == Issued(Groups(opcode, lba0, g, 1, m), ok, 0)
  {
    hide Solves, Rounds, Issued, Groups, Left, Lba;
    StepDown(nlba0, g, 0);
    StepUp(lba0, g, 0);
    ghost var all := Groups(opcode, lba0, g, 1, m);
    var lba, nlba, i := lba0, nlba0, 0;
    issued := [];
    RoundsAt(g, nlba0, m, 0);
    GroupCount(opcode, lba0, g, 1, m);
    IssuedAll(all, ok);
    while nlba != 0
      invariant i <= m && nlba == Left(nlba0, g, i) && lba == Lba(lba0, g, i)
      invariant nlba == 0 <==> i == m
      invariant issued + Issued(all, ok, i) == Issued(all, ok, 0) && AllOk(ok, i)
      decreases m - i
    {
      StepDown(nlba0, g, i);
      RoundsAt(g, nlba0, m, i + 1);
      StepUp(lba0, g, i);
      UnscaledGroup(opcode, lba0, g, m, i);
      IssuedStep(all, ok, i);
      issued := issued + [Cmd(opcode, lba)];
      if !ok(i) {
        return Failed, issued;
      }
      lba := (lba + g) % LIMIT32;
      nlba := (nlba - g) % LIMIT32;
      i := i + 1;
    }
    return Success, issued;
  }

  lemma RoundsAt(g: uint32, n: uint32, m: nat, i: nat)
    requires Rounds(g, n, m) && i <= m
    ensures Left(n, g, i) == 0 <==> i == m
  {
    StepDown(n, g, i);
  }

  lemma GroupCount(opcode: nat, lba: uint32, g: uint32, scale: uint32, count: nat)
    ensures |Groups(opcode, lba, g, scale, count)| == count
  {
  }

  lemma UnscaledGroup(opcode: nat, lba: uint32, g: uint32, count: nat, k: nat)
    requires k < count
    ensures Groups(opcode, lba, g, 1, count)[k] == Cmd(opcode, Lba(lba, g, k))
  {
  }

  lemma GroupsAre(opcode: nat, lba: uint32, g: uint32, scale: uint32, count: nat)
    ensures var all := Groups(opcode, lba, g, scale, count);
      |all| == count && forall k :: 0 <= k < count ==> all[k] == Cmd(opcode, Lba(lba, g, k) * scale % LIMIT32)
  {
  }

  lemma IssuedStep(all: seq<Cmd>, ok: nat -> bool, i: nat)
    requires i < |all|
    ensures Issued(all, ok, i) == [all[i]] + if ok(i) then Issued(all, ok, i + 1) else []
  {
  }

  lemma IssuedAll(all: seq<Cmd>, ok: nat -> bool)
    ensures Issued(all, ok, |all|) == []
  {
  }

  /** The SDIO driver. `setup` says that selecting the partition and its protection mode succeeded. */
  method SdmmcWriteProtect(opcode: nat, lba0: uint32, nlba0: uint32, wpSize: uint32, sectorSize: uint32, hc: bool,
                           setup: bool, ok: nat -> bool)
    returns (status: Status, issued: seq<Cmd>)
    ensures var g := wpSize / 512;
      if g == 0 then status == NotSupported && issued == []
      else if lba0 % g != 0 then status == Invalid && issued == []
      else if !setup then status == Failed && issued == []
      else SdmmcIssues(opcode, lba0, nlba0, g, if hc then 1 else sectorSize, ok, status, issued)
  {
    var g := wpSize / 512;
    if g == 0 {
      return NotSupported, [];
    }
    if lba0 % g != 0 {
      return Invalid, [];
    }
    if !setup {
      return Failed, [];
    }
    status, issued := SdmmcLoop(opcode, lba0, nlba0, g, sectorSize, hc, ok);
  }

  method SdmmcLoop(opcode: nat, lba0: uint32, nlba0: uint32, g: uint32, sectorSize: uint32, hc: bool, ok: nat -> bool)
    returns (status: Status, issued: seq<Cmd>)
    requires g > 0
    ensures status == (if AllOk(ok, CeilDiv(nlba0, g)) then Success else Failed)
    ensures issued == Issued(Groups(opcode, lba0, g, if hc then 1 else sectorSize, CeilDiv(nlba0, g)), ok, 0)
  {
    hide Issued, Groups, CeilDiv, LeftAbove, Lba;
    StepUp(lba0, g, 0);
    ghost var m, scale := CeilDiv(nlba0, g), if hc then 1 else sectorSize;
    ghost var all := Groups(opcode, lba0, g, scale, m);
    var lba, nlba, i := lba0, nlba0, 0;
    issued := [];
    LeftAtStart(nlba0, g);
    GroupsAre(opcode, lba0, g, scale, m);
    IssuedAll(all, ok);
    while nlba != 0
      invariant i <= m && nlba == LeftAbove(nlba0, g, i) && lba == Lba(lba0, g, i)
      invariant nlba == 0 <==> i == m
      invariant issued + Issued(all, ok, i) == Issued(all, ok, 0) && AllOk(ok, i)
      decreases m - i
    {
      StepUp(lba0, g, i);
      CeilStep(nlba0, g, i);
      IssuedStep(all, ok, i);
      issued := issued + [Cmd(opcode, if hc then lba else lba * sectorSize % LIMIT32)];
      if !ok(i) {
        return Failed, issued;
      }
      lba := (lba + g) % LIMIT32;
      nlba := nlba - if nlba < g then nlba else g;
      i := i + 1;
    }
    return Success, issued;
  }

  lemma CeilBound(n: nat, g: nat)
    requires g > 0
    ensures n <= CeilDiv(n, g) * g < n + g && (n == 0 <==> CeilDiv(n, g) == 0)
  {
    var c := CeilDiv(n, g);
    assert n + g - 1 == c * g + (n + g - 1) % g;
    if n == 0 {
      DivUnique(g - 1, g, 0, g - 1);
    } else {
      assert c * g >= n;
    }
  }

  lemma LeftAtStart(n: uint32, g: uint32)
    requires g > 0
    ensures LeftAbove(n, g, 0) == n && (n == 0 <==> CeilDiv(n, g) == 0)
  {
    CeilBound(n, g);
  }

  lemma CeilStep(n: uint32, g: uint32, i: nat)
    requires g > 0 && i < CeilDiv(n, g)
    ensures var left := LeftAbove(n, g, i); left - (if left < g then left else g) == LeftAbove(n, g, i + 1)
    ensures LeftAbove(n, g, i + 1) == 0 <==> i + 1 == CeilDiv(n, g)
  {
    CeilBound(n, g);
    var c := CeilDiv(n, g);
    assert (i + 1) * g == i * g + g;
    assert c * g - (i + 1) * g == (c - i - 1) * g;
    if i + 1 < c {
      MulAtLeast(c - i - 1, g);
    }
  }

  lemma RoundsAgree(nlba: uint32, g: uint32)
    requires g > 0 && PowerOfTwo(g) && nlba > 0 && nlba + g <= LIMIT32 && 2 * g <= LIMIT32
    ensures Rounds(g, Aligned(nlba, g), CeilDiv(nlba, g))
  {
    CoversExactly(g);
    CeilBound(nlba, g);
    assert Aligned(nlba, g) == CeilDiv(nlba, g) * g;
    AlignedFits(Max(nlba, g), g);
    RoundsOfMultiple(g, CeilDiv(nlba, g));
  }

  /** For a power-of-two group size and a request that does not wrap, on a block-addressed card, the two
      drivers issue the same commands and answer the same, whatever the card answers. */
  lemma LoopsAgree(opcode: nat, lba: uint32, nlba: uint32, g: uint32, ok: nat -> bool,
                   mmc: Status, mmcIssued: seq<Cmd>, sdmmc: Status, sdmmcIssued: seq<Cmd>)
    requires g > 0 && PowerOfTwo(g) && nlba > 0 && nlba + g <= LIMIT32 && 2 * g <= LIMIT32
    requires MmcIssues(opcode, lba, nlba, g, ok, mmc, mmcIssued)
    requires SdmmcIssues(opcode, lba, nlba, g, 1, ok, sdmmc, sdmmcIssued)
    ensures mmc == sdmmc && mmcIssued == sdmmcIssued
  {
    hide MmcIssues, PowerOfTwo, CeilDiv, Groups, Issued, AllOk;
    MmcIssuesExactly(opcode, lba, nlba, g, ok, mmc, mmcIssued);
  }

  /** A request for no blocks is where they differ: the MMC driver protects one group, the other none. */
  lemma EmptyRequestDiffers(opcode: nat, lba: uint32, g: uint32, scale: uint32, ok: nat -> bool,
                            mmc: Status, mmcIssued: seq<Cmd>, sdmmc: Status, sdmmcIssued: seq<Cmd>)
    requires g > 0 && PowerOfTwo(g) && 2 * g <= LIMIT32
    requires MmcIssues(opcode, lba, 0, g, ok, mmc, mmcIssued)
    requires SdmmcIssues(opcode, lba, 0, g, scale, ok, sdmmc, sdmmcIssued)
    ensures mmcIssued == [Cmd(opcode, lba)] && sdmmcIssued == []
  {
    hide Rounds, PowerOfTwo, AllOk;
    var m: nat :|
      && Rounds(g, Aligned(0, g), m)
      && mmc == (if AllOk(ok, m) then Success else Failed)
      && mmcIssued == Issued(Groups(opcode, lba, g, 1, m), ok, 0);
    AlignRoundsUp(g, g);
    OneGroup(g, g);
    RoundsOfMultiple(g, 1);
    RoundsUnique(g, g, m, 1);
    CeilBound(0, g);
    StepUp(lba, g, 0);
    var all := Groups(opcode, lba, g, 1, 1);
    GroupsAre(opcode, lba, g, 1, 1);
    IssuedStep(all, ok, 0);
    IssuedAll(all, ok);
  }

  /** A multiple of `2 * p` that is a number times an odd one: the number is even, and half of it times the
      odd one is a multiple of `p`. */
  lemma OddHalf(x: nat, odd: nat, p: nat) returns (y: nat)
    requires odd % 2 == 1 && p > 0 && x * odd % (2 * p) == 0
    ensures x == 2 * y && y * odd % p == 0
  {
    var q := x * odd / (2 * p);
    Exact(x * odd, 2 * p);
    assert q * (2 * p) == 2 * (q * p);
    EvenFactor(x, odd / 2, q * p);
    y := x / 2;
    HalfProduct(y, odd, q * p);
    MultipleMod(q, p);
  }

  lemma EvenFactor(x: nat, a: nat, m: nat)
    requires x * (2 * a + 1) == 2 * m
    ensures x % 2 == 0
  {
    var z := x * a;
    assert x * (2 * a + 1) == 2 * z + x;
  }

  lemma HalfProduct(y: nat, odd: nat, m: nat)
    requires 2 * y * odd == 2 * m
    ensures y * odd == m
  {
  }

  lemma {:induction false} OddFactor(x: nat, odd: nat, s: nat)
    requires odd % 2 == 1 && x * odd % Pow2(s) == 0
    ensures x % Pow2(s) == 0
    decreases s
  {
    if s > 0 {
      var p := Pow2(s - 1);
      var y := OddHalf(x, odd, p);
      OddFactor(y, odd, s - 1);
      DoubleMultiple(y, p);
    }
  }

  lemma DoubleMultiple(y: nat, p: nat)
    requires p > 0 && y % p == 0
    ensures 2 * y % (2 * p) == 0
  {
    var q := y / p;
    Exact(y, p);
    assert 2 * y == q * (2 * p);
    MultipleMod(q, 2 * p);
  }

  /** An address and its byte address are the same word only at zero. */
  lemma OnlyZeroScales(x: uint32, scale: uint32)
    requires scale % 2 == 0 && scale > 0
    ensures x * scale % LIMIT32 == x <==> x == 0
  {
    if x * scale % LIMIT32 == x {
      Pow2Of32();
      var q := x * scale / LIMIT32;
      assert x * scale == q * LIMIT32 + x;
      assert x * (scale - 1) == q * LIMIT32;
      MultipleMod(q, LIMIT32);
      OddFactor(x, scale - 1, 32);
    }
  }

  lemma {:induction false} IssuedWhole(all: seq<Cmd>, ok: nat -> bool, from: nat)
    requires from <= |all| && forall k: nat :: ok(k)
    ensures Issued(all, ok, from) == all[from..]
    decreases |all| - from
  {
    if from < |all| {
      IssuedWhole(all, ok, from + 1);
    }
  }

  /** Whatever the card answers, the same commands are issued. */
  ghost predicate IssueAlike(all: seq<Cmd>, others: seq<Cmd>) {
    forall ok: nat -> bool :: Issued(all, ok, 0) == Issued(others, ok, 0)
  }

  lemma AlikeExactly(all: seq<Cmd>, others: seq<Cmd>)
    ensures IssueAlike(all, others) <==> all == others
  {
    hide Issued;
    if IssueAlike(all, others) {
      var ok: nat -> bool := (k: nat) => true;
      IssuedWhole(all, ok, 0);
      IssuedWhole(others, ok, 0);
      assert Issued(all, ok, 0) == Issued(others, ok, 0);
    }
  }

  lemma SameGroupExactly(opcode: nat, lba: uint32, g: uint32, scale: uint32, c: nat, k: nat)
    requires k < c && scale > 0 && scale % 2 == 0
    ensures var all, others := Groups(opcode, lba, g, 1, c), Groups(opcode, lba, g, scale, c);
      |all| == |others| == c && (all[k] == others[k] <==> Lba(lba, g, k) == 0)
  {
    hide Groups, Lba;
    GroupsAre(opcode, lba, g, 1, c);
    GroupsAre(opcode, lba, g, scale, c);
    OnlyZeroScales(Lba(lba, g, k), scale);
  }

  /** The commands for unscaled and scaled groups are the same only for one group at block 0. */
  lemma ByteGroupsAgreeExactly(opcode: nat, lba: uint32, nlba: uint32, g: uint32, sectorSize: uint32)
    requires g > 0 && nlba > 0 && sectorSize > 0 && sectorSize % 2 == 0
    ensures var c := CeilDiv(nlba, g);
      IssueAlike(Groups(opcode, lba, g, 1, c), Groups(opcode, lba, g, sectorSize, c)) <==> lba == 0 && nlba <= g
  {
    hide CeilDiv, Groups, Issued, IssueAlike, Lba;
    var c := CeilDiv(nlba, g);
    var blocks, bytes := Groups(opcode, lba, g, 1, c), Groups(opcode, lba, g, sectorSize, c);
    AlikeExactly(blocks, bytes);
    OneGroup(nlba, g);
    SameGroupExactly(opcode, lba, g, sectorSize, c, 0);
    StepUp(lba, g, 0);
    if c > 1 {
      SameGroupExactly(opcode, lba, g, sectorSize, c, 1);
    } else if lba == 0 {
      assert blocks == bytes;
    }
  }

  /** Whatever the card answers, the two drivers issue the same commands. */
  ghost predicate DriversAlike(opcode: nat, lba: uint32, nlba: uint32, g: uint32, scale: uint32)
    requires g > 0
  {
    forall ok: nat -> bool, mmc: Status, mmcIssued: seq<Cmd>, sdmmc: Status, sdmmcIssued: seq<Cmd> ::
      && MmcIssues(opcode, lba, nlba, g, ok, mmc, mmcIssued)
      && SdmmcIssues(opcode, lba, nlba, g, scale, ok, sdmmc, sdmmcIssued)
      ==> mmcIssued == sdmmcIssued
  }

  /** What the MMC driver issues, for a power-of-two group size and a request that does not wrap. */
  lemma MmcIssuesExactly(opcode: nat, lba: uint32, nlba: uint32, g: uint32, ok: nat -> bool,
                         mmc: Status, issued: seq<Cmd>)
    requires g > 0 && PowerOfTwo(g) && nlba > 0 && nlba + g <= LIMIT32 && 2 * g <= LIMIT32
    ensures MmcIssues(opcode, lba, nlba, g, ok, mmc, issued) <==>
      var c := CeilDiv(nlba, g);
      mmc == (if AllOk(ok, c) then Success else Failed) && issued == Issued(Groups(opcode, lba, g, 1, c), ok, 0)
  {
    hide Rounds, Aligned, PowerOfTwo, CeilDiv, Groups, Issued, AllOk;
    RoundsAgree(nlba, g);
    if MmcIssues(opcode, lba, nlba, g, ok, mmc, issued) {
      var m: nat :|
        && Rounds(g, Aligned(nlba, g), m)
        && mmc == (if AllOk(ok, m) then Success else Failed)
        && issued == Issued(Groups(opcode, lba, g, 1, m), ok, 0);
      RoundsUnique(g, Aligned(nlba, g), m, CeilDiv(nlba, g));
    }
  }

  /** On a byte-addressed card the SDIO driver multiplies by the sector size and the MMC driver does not:
      over the same groups they issue the same commands only for one group at block 0. */
  lemma ByteAddressesAgreeExactly(opcode: nat, lba: uint32, nlba: uint32, g: uint32, sectorSize: uint32)
    requires g > 0 && PowerOfTwo(g) && nlba > 0 && nlba + g <= LIMIT32 && 2 * g <= LIMIT32
    requires sectorSize > 0 && sectorSize % 2 == 0
    ensures DriversAlike(opcode, lba, nlba, g, sectorSize) <==> lba == 0 && nlba <= g
  {
    hide MmcIssues, PowerOfTwo, CeilDiv, Groups, Issued, AllOk, IssueAlike;
    var c := CeilDiv(nlba, g);
    var blocks, bytes := Groups(opcode, lba, g, 1, c), Groups(opcode, lba, g, sectorSize, c);
    ByteGroupsAgreeExactly(opcode, lba, nlba, g, sectorSize);
    AlikeExactly(blocks, bytes);
    forall ok: nat -> bool, mmc: Status, issued: seq<Cmd>
      ensures MmcIssues(opcode, lba, nlba, g, ok, mmc, issued) <==>
        mmc == (if AllOk(ok, c) then Success else Failed) && issued == Issued(blocks, ok, 0)
    {
      MmcIssuesExactly(opcode, lba, nlba, g, ok, mmc, issued);
    }
    if DriversAlike(opcode, lba, nlba, g, sectorSize) {
      forall ok: nat -> bool ensures Issued(blocks, ok, 0) == Issued(bytes, ok, 0) {
        var status := if AllOk(ok, c) then Success else Failed;
        assert MmcIssues(opcode, lba, nlba, g, ok, status, Issued(blocks, ok, 0));
        assert SdmmcIssues(opcode, lba, nlba, g, sectorSize, ok, status, Issued(bytes, ok, 0));
      }
      SameIssued(blocks, bytes);
    }
  }

  lemma SameIssued(all: seq<Cmd>, others: seq<Cmd>)
    requires forall ok: nat -> bool :: Issued(all, ok, 0) == Issued(others, ok, 0)
    ensures IssueAlike(all, others)
  {
  }

  lemma OneGroup(nlba: nat, g: nat)
    requires g > 0 && nlba > 0
    ensures CeilDiv(nlba, g) >= 1 && (CeilDiv(nlba, g) == 1 <==> nlba <= g)
  {
    CeilBound(nlba, g);
    if CeilDiv(nlba, g) > 1 {
      MulAtLeast(CeilDiv(nlba, g) - 1, g);
      assert CeilDiv(nlba, g) * g == (CeilDiv(nlba, g) - 1) * g + g;
    }
  }

  /** Those groups cover every block of the request. */
  lemma GroupsCover(lba: nat, nlba: nat, g: nat, block: nat)
    requires g > 0 && lba <= block < lba + nlba
    ensures var k := (block - lba) / g;
      k < CeilDiv(nlba, g) && lba + k * g <= block < lba + (k + 1) * g
  {
    hide CeilDiv;
    CeilBound(nlba, g);
    GroupOf(block - lba, g, CeilDiv(nlba, g));
  }

  /** The last group is needed. */
  lemma GroupsFewest(nlba: nat, g: nat)
    requires g > 0 && nlba > 0
    ensures (CeilDiv(nlba, g) - 1) * g < nlba
  {
    hide CeilDiv;
    CeilBound(nlba, g);
    assert (CeilDiv(nlba, g) - 1) * g == CeilDiv(nlba, g) * g - g;
  }

  lemma GroupOf(x: nat, g: nat, c: nat)
    requires g > 0 && x < c * g
    ensures x / g < c && x / g * g <= x < (x / g + 1) * g
  {
    assert x == x / g * g + x % g && (x / g + 1) * g == x / g * g + g;
    QuotientBound(x, c, g);
  }

  lemma QuotientBound(x: nat, c: nat, g: nat)
    requires g > 0 && x < c * g
    ensures x / g < c
  {
    DivDiv(x, g, c);
    DivUnique(x, g * c, 0, x);
    assert x / g / c == 0;
  }
}
