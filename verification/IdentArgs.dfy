/** The arguments of the identification's commands: the card's address, the voltages offered, the registers
    written. */
module IdentArgs {
  import opened IdentModel
  import opened IdentRuns
  import opened Words

  // ----- the card's address -----

  /** The phases after the card has its address. */
  predicate Addressed(p: Phase) {
    p in {SendCid, SendCsd, SelDesCard, CheckSts, SetBwApp, SetBw, SendScr, ParseScr, CheckMode, SwitchMode,
          ExtCsd, SwitchHs, SwitchBw, Final, Done}
  }

  lemma StaysAddressed(h: Host, s: State, i: Input)
    requires Addressed(s.phase)
    ensures var n := Next(h, s, i); Addressed(n.phase) && n.rca == s.rca && n.version == s.version
  {
    hide Refused, Waits, SkipsHighSpeed, Wide, WideMmc, NextStage, NextCount, NextHighSpeed, NextHighCapacity,
      NextWriteProtected, NextPushPull, NextProt, NextCcc;
  }

  /** The address the card is given, or gives. */
  predicate Proposed(s: State) {
    s.phase == SetAddress ==> s.rca == if s.version == Mmc then 2 else 0
  }

  lemma ProposedKept(h: Host, s: State, i: Input)
    requires Proposed(s)
    ensures Proposed(Next(h, s, i))
  {
    hide Bit, Answered, TimedOut, SkipsHighSpeed, Wide, WideMmc, NextStage, NextCount, NextHighSpeed,
      NextHighCapacity, NextWriteProtected, NextPushPull, NextProt, NextCcc;
  }

  lemma {:induction false} AttemptProposes(h: Host, s: State, ins: seq<Input>)
    requires Proposed(s)
    ensures Proposed(After(h, s, ins))
  {
    hide Next, Proposed;
    if ins != [] {
      AttemptProposes(h, s, ins[..|ins| - 1]);
      ProposedKept(h, After(h, s, ins[..|ins| - 1]), ins[|ins| - 1]);
    }
  }

  /** The address in force once call `k` has handled the answer to the address command. */
  function Given(version: Version, answer: Input): uint32 {
    if version == Mmc then 2 else answer.resp.w0 / 0x1_0000
  }

  lemma AddressTaken(h: Host, s: State, i: Input)
    requires s.phase == SetAddress && Proposed(s) && !i.error
    ensures var n := Next(h, s, i);
      n.phase == SendCid && n.rca == Given(s.version, i) && n.version == s.version
  {
    hide Waits, SkipsHighSpeed, Wide, WideMmc, NextStage, NextCount, NextHighSpeed, NextHighCapacity,
      NextWriteProtected, NextPushPull, NextProt, NextCcc;
  }

  lemma {:induction false} AddressCarried(h: Host, s: State, ins: seq<Input>, k: nat)
    requires Proposed(s) && k < |ins| && After(h, s, ins[..k]).phase == SetAddress && !ins[k].error
    ensures var n := After(h, s, ins);
      Addressed(n.phase) && n.rca == Given(After(h, s, ins[..k]).version, ins[k])
  {
    hide Next, Proposed;
    var last := |ins| - 1;
    if k == last {
      AttemptProposes(h, s, ins[..k]);
      AddressTaken(h, After(h, s, ins[..k]), ins[k]);
    } else {
      assert ins[..last][..k] == ins[..k];
      AddressCarried(h, s, ins[..last], k);
      StaysAddressed(h, After(h, s, ins[..last]), ins[last]);
    }
  }

  /** The argument carries this address, and nothing else. */
  predicate Carries(c: Command, address: uint32) {
    c.argument / 0x1_0000 == address && c.argument % 0x1_0000 == 0
  }

  lemma ShiftedAddress(address: uint32)
    requires address < 0x1_0000
    ensures address * 0x1_0000 % LIMIT32 == address * 0x1_0000
    ensures address * 0x1_0000 / 0x1_0000 == address && address * 0x1_0000 % 0x1_0000 == 0
  {
  }

  predicate ForCard(c: Command) {
    c.opcode in {SEND_CID, SEND_CSD, SEL_DES_CARD, SEND_STATUS, APP_CMD}
  }

  lemma AwaitedAddress(h: Host, n: State)
    requires Addressed(n.phase) && n.rca < 0x1_0000 && ForCard(Awaited(h, n))
    ensures Carries(Awaited(h, n), n.rca)
  {
    hide SdOcr, MmcOcr, BusWidthValue;
    ShiftedAddress(n.rca);
  }

  lemma PolledAddress(h: Host, s: State, i: Input, c: Command)
    requires s.rca < 0x1_0000 && c in Completed(h, s, i) && ForCard(c)
    ensures Carries(c, s.rca)
  {
    hide NextPhase, Partitioned, Waits;
    ShiftedAddress(s.rca);
  }

  lemma SentAddress(h: Host, s: State, i: Input, c: Command)
    requires c in Sent(h, s, i) && ForCard(c) && s.rca < 0x1_0000 && Addressed(s.phase)
    ensures Carries(c, s.rca)
  {
    hide Completed, Awaited, Next, Silent;
    StaysAddressed(h, s, i);
    if c in Completed(h, s, i) {
      PolledAddress(h, s, i, c);
    } else {
      AwaitedAddress(h, Next(h, s, i));
    }
  }

  lemma FirstAddress(h: Host, s: State, i: Input, c: Command)
    requires s.phase == SetAddress && Proposed(s) && !i.error && c in Sent(h, s, i)
    ensures ForCard(c) ==> Carries(c, Given(s.version, i))
  {
    hide Awaited, Next, Silent;
    AddressTaken(h, s, i);
    assert Completed(h, s, i) == [] by {
      NoneCompleted(h, s, i);
    }
    if ForCard(c) {
      AwaitedAddress(h, Next(h, s, i));
    }
  }

  lemma NoneCompleted(h: Host, s: State, i: Input)
    requires s.phase == SetAddress || s.phase == AllSendCid
    ensures Completed(h, s, i) == []
  {
    hide NextPhase, Partitioned, Polls;
  }

  /** In every attempt, once a call has handled the answer to the address command, every later command for
      the card alone, the one of that call included, carries the address in its upper half and nothing in
      its lower: 2 for an MMC card, and for an SD card the upper half of the answer. */
  lemma AddressedCommands(h: Host, s: State, ins: seq<Input>, k: nat, i: Input, c: Command)
    requires s.phase == Start && k <= |ins| && After(h, s, ins[..k]).phase == SetAddress && !(ins + [i])[k].error
    requires c in Sent(h, After(h, s, ins), i) && c.opcode in {7, 9, 10, 13, 55}
    ensures var address := if After(h, s, ins[..k]).version == Mmc then 2 else (ins + [i])[k].resp.w0 / 0x1_0000;
      c.argument / 0x1_0000 == address && c.argument % 0x1_0000 == 0
  {
    hide Sent, Proposed;
    assert Proposed(s) by {
      StartProposes(s);
    }
    if k == |ins| {
      assert ins[..k] == ins;
      AttemptProposes(h, s, ins);
      FirstAddress(h, After(h, s, ins), i, c);
    } else {
      AddressCarried(h, s, ins, k);
      SentAddress(h, After(h, s, ins), i, c);
    }
  }

  lemma StartProposes(s: State)
    requires s.phase == Start
    ensures Proposed(s)
  {
  }

  /** The address command itself offers an MMC card the address 2, and asks an SD card for its own. */
  lemma AddressCommand(h: Host, s: State, i: Input, c: Command)
    requires c in Sent(h, s, i) && s.phase == AllSendCid
    ensures c.opcode == 3 && c.argument == if s.version == Mmc then 0x2_0000 else 0
  {
    hide Waits, SkipsHighSpeed, Wide, WideMmc, NextStage, NextCount, NextHighSpeed, NextHighCapacity,
      NextWriteProtected, NextPushPull, NextProt, NextCcc, Completed;
    NoneCompleted(h, s, i);
  }

  // ----- the voltages offered -----

  function BitOf(word: nat, weight: nat): nat
    requires weight > 0
  {
    word / weight % 2
  }

  /** The window offered to an SD card, bit by bit: bit 24 for 1.8 V; bit 18 for 3.0 V and bit 21 for 3.3 V;
      and all of bits 15 to 23 when the controller has every voltage, without the first. */
  lemma SdWindow(h: Host)
    ensures var w := SdOcr(h); var all := h.v18 && h.v30 && h.v33;
      && w % 0x8000 == 0 && w < 0x200_0000
      && (BitOf(w, 0x100_0000) == 1 <==> h.v18 && !all)
      && (BitOf(w, 0x4_0000) == 1 <==> all || (h.v30 && !h.v18))
      && (BitOf(w, 0x20_0000) == 1 <==> all || (!h.v30 && !h.v18))
      && forall weight :: weight in {0x8000, 0x1_0000, 0x2_0000, 0x8_0000, 0x10_0000, 0x40_0000, 0x80_0000} ==>
           (BitOf(w, weight) == 1 <==> all)
  {
  }

  /** The window offered to an MMC card: bit 7 for 1.8 V, bits 15 to 23 for 3.0 or 3.3 V, and always bit 30. */
  lemma MmcWindow(h: Host)
    ensures MmcOcr(h) == 0x4000_0000 + (if h.v18 then 0x80 else 0) + (if h.v30 || h.v33 then 0x100_0000 - 0x8000 else 0)
  {
  }

  /** The operating-condition commands: an SD card is first asked for its window, then offered the host's, with
      bit 30 exactly for a version 2 card; an MMC card is first asked, then offered. */
  lemma ConditionCommands(h: Host, s: State, i: Input, c: Command)
    requires c in Sent(h, s, i) && (s.phase == SdPowerup ==> s.version != Mmc)
    ensures c.opcode == 41 ==>
      s.phase == SdPowerup
      && c.argument == (if s.istage == 1 then 0 else SdOcr(h)) + if s.version == Sd2 then 0x4000_0000 else 0
    ensures c.opcode == 1 ==> s.phase == MmcPowerup && c.argument == if s.istage == 0 then 0 else MmcOcr(h)
  {
    hide Awaited, Completed, Next, Silent, SdOcr, MmcOcr;
    CompletedOpcodes(h, s, i);
    AwaitedCondition(h, Next(h, s, i));
    if c !in Completed(h, s, i) {
      ConditionMoves(h, s, i);
    }
  }

  lemma CompletedOpcodes(h: Host, s: State, i: Input)
    ensures forall c :: c in Completed(h, s, i) ==> c.opcode == SEND_STATUS || (c.opcode == SWITCH && s.phase == ExtCsd)
  {
    hide NextPhase, Partitioned, Waits, RcaArg;
  }

  lemma AwaitedCondition(h: Host, n: State)
    ensures var c := Awaited(h, n);
      && (c.opcode == 41 ==>
            && n.phase == SdPowerup && n.istage != 1 && n.istage % 3 != 0
            && c.argument == (if n.istage == 2 then 0 else SdOcr(h)) + if n.version == Sd2 then 0x4000_0000 else 0)
      && (c.opcode == 1 ==>
            && n.phase == MmcPowerup && n.istage > 0
            && c.argument == if n.istage == 1 then 0 else MmcOcr(h))
  {
    hide RcaArg, SdOcr, MmcOcr;
  }

  lemma ConditionMoves(h: Host, s: State, i: Input)
    requires !Silent(h, s, i)
    ensures var n := Next(h, s, i);
      && (n.phase == SdPowerup && n.istage != 1 && n.istage % 3 != 0 ==>
            s.phase == SdPowerup && n.version == s.version && (n.istage == 2 <==> s.istage == 1))
      && (n.phase == MmcPowerup && n.istage > 0 ==> s.phase == MmcPowerup && n.istage == s.istage + 1)
  {
    hide Bit, TimedOut, SkipsHighSpeed, Wide, WideMmc, NextCount, NextRca, NextHighSpeed, NextHighCapacity,
      NextWriteProtected, NextPushPull, NextProt, NextCcc;
  }

  // ----- the registers written, and the rest -----

  /** The register and the value an MMC switch command writes. */
  predicate Writes(c: Command, register: nat, value: nat) {
    c.argument / 0x100_0000 == 3 && c.argument / 0x1_0000 % 0x100 == register && c.argument / 0x100 % 0x100 == value
  }

  /** The width code of the MMC bus: 8, 4 or 1 bit, as forced, or the widest the controller has. */
  function WidthCode(h: Host): nat {
    if h.forcedBus == Some(8) || (h.forcedBus == None && h.bus8) then 2
    else if h.forcedBus == Some(4) || (h.forcedBus == None && h.bus4) then 1
    else 0
  }

  /** Every other command: the version question, the SD switch commands, the MMC registers for the erase groups,
      the speed and the bus width, the block length; and those that take no argument. */
  lemma OtherCommands(h: Host, s: State, i: Input, c: Command)
    requires c in Sent(h, s, i)
    ensures c.opcode in {0, 2, 51} ==> c.argument == 0
    ensures c.opcode == 8 ==> c.argument == if s.phase == GoIdle then 0x1AA else 0
    ensures c.opcode == 16 ==> c.argument == 512
    ensures c.opcode == 6 ==>
      match s.phase
      case SetBwApp => c.argument == 2
      case ParseScr => c.argument == 0x00FF_FF01
      case CheckMode => c.argument == 0x80FF_FF01
      case ExtCsd => Writes(c, 175, 1) || Writes(c, 185, 1) || Writes(c, 183, WidthCode(h))
      case SwitchHs => Writes(c, 183, WidthCode(h))
      case _ => false
    ensures c.opcode == 55 && s.phase in {CardVersion, SdPowerup} ==> c.argument == 0
  {
    hide Completed, Awaited, NextPhase, NextStage, NextVersion, NextRca, Silent, NextCount, NextHighSpeed,
      NextHighCapacity, NextWriteProtected, NextPushPull, NextProt, NextCcc;
    CompletedArguments(h, s, i);
    if c !in Completed(h, s, i) {
      AwaitedArgument(h, Next(h, s, i));
      PhaseBefore(h, s, i);
    }
  }

  lemma CompletedArguments(h: Host, s: State, i: Input)
    ensures forall c :: c in Completed(h, s, i) ==>
      c.opcode == SEND_STATUS || (c.opcode == SWITCH && s.phase == ExtCsd && Writes(c, 175, 1))
  {
    hide NextPhase, Partitioned, Waits, RcaArg;
  }

  lemma AwaitedArgument(h: Host, n: State)
    ensures var c := Awaited(h, n);
      && (c.opcode in {0, 2, 51} ==> c.argument == 0)
      && (c.opcode == 8 ==>
            if n.phase == CardVersion then c.argument == 0x1AA else n.phase == ExtCsd && c.argument == 0)
      && (c.opcode == 16 && n.phase != Done ==> c.argument == 512)
      && (c.opcode == 55 && n.phase == SdPowerup ==> c.argument == 0)
      && (c.opcode == 55 ==> n.phase in {SdPowerup, SetBwApp, SendScr})
      && (c.opcode == 6 ==>
            match n.phase
            case SetBw => c.argument == 2
            case CheckMode => c.argument == 0x00FF_FF01
            case SwitchMode => c.argument == 0x80FF_FF01
            case SwitchHs => Writes(c, 185, 1)
            case SwitchBw => Writes(c, 183, WidthCode(h))
            case _ => false)
  {
    hide RcaArg, SdOcr, MmcOcr;
  }

  lemma PhaseBefore(h: Host, s: State, i: Input)
    requires !Silent(h, s, i)
    ensures var n := Next(h, s, i);
      && n.phase != Done
      && (n.phase == CardVersion ==> s.phase == GoIdle)
      && (n.phase == ExtCsd ==> s.phase == CheckSts)
      && (n.phase == SetBw ==> s.phase == SetBwApp)
      && (n.phase == CheckMode ==> s.phase == ParseScr)
      && (n.phase == SwitchMode ==> s.phase == CheckMode)
      && (n.phase == SwitchHs ==> s.phase == ExtCsd)
      && (n.phase == SwitchBw ==> s.phase == ExtCsd || s.phase == SwitchHs)
      && (n.phase in {SetBwApp, SendScr} ==> s.phase in {CheckSts, SetBw, SetBwApp})
  {
    hide Bit, SkipsHighSpeed, Wide, WideMmc, NextStage, NextCount, NextRca, NextVersion, NextHighSpeed,
      NextHighCapacity, NextWriteProtected, NextPushPull, NextProt, NextCcc;
  }

  /** The command awaited in each phase, by its number. */
  lemma OpcodesExactly(s: State)
    ensures Opcode(s) ==
      match s.phase
      case Start => 0
      case GoIdle => 0
      case CardVersion => 8
      case SdPowerup => if s.istage == 1 || s.istage % 3 == 0 then 55 else 41
      case MmcPowerup => if s.istage == 0 then 0 else 1
      case AllSendCid => 2
      case SetAddress => 3
      case SendCid => 10
      case SendCsd => 9
      case SelDesCard => 7
      case CheckSts => 13
      case SetBwApp => 55
      case SendScr => 55
      case ParseScr => 51
      case ExtCsd => 8
      case Final => 16
      case Done => 16
      case _ => 6
  {
  }
}
