/** Which way identification goes: what the card's answers and the controller must say for each next command,
    each flag and each refusal, down to the bits. */
module IdentChoices {
  import opened Csd
  import opened IdentModel
  import opened Powers
  import opened Words

  lemma PowerValues()
    ensures Pow2(0) == 1 && Pow2(1) == 2 && Pow2(10) == 1024 && Pow2(13) == 0x2000
    ensures Pow2(20) == 0x10_0000 && Pow2(30) == 0x4000_0000 && Pow2(31) == 0x8000_0000
  {
    Pow2Values();
    assert Pow2(1) == 2 && Pow2(3) == 8 && Pow2(0) == 1;
    hide Pow2;
    Pow2Sum(10, 3);
    Pow2Sum(10, 10);
    Pow2Sum(15, 15);
    Pow2Sum(16, 15);
  }

  /** The bits the handlers look at. */
  lemma BitValues(s: State, i: Input)
    ensures PoweredUp(i) <==> i.resp.w0 / 0x8000_0000 == 1
    ensures HighCapacityCard(i) <==> i.resp.w0 / 0x4000_0000 % 2 == 1
    ensures Answered(i) <==> i.timeout || (!i.error && i.resp.w0 % 0x2000 == 0x1AA)
    ensures CardOffersHighSpeed(i) <==> Byte(i, 13) / 2 % 2 == 1
    ensures CardHasSwitch(s) <==> s.ccc / 1024 % 2 == 1
    ensures Partitioned(i) <==> Byte(i, 160) % 2 == 1 && Byte(i, 155) % 2 == 1
  {
    hide Pow2, Byte;
    PowerValues();
  }

  /** The version question: no answer means a version 1 or an MMC card, the pattern sent a version 2 card, and
      anything else ends the attempt. */
  lemma VersionExactly(h: Host, s: State, i: Input)
    requires s.phase == CardVersion
    ensures var n := Next(h, s, i); var pattern := !i.error && i.resp.w0 % 0x2000 == 0x1AA;
      && (Refused(h, s, i) <==> !i.timeout && !pattern)
      && (i.timeout ==> n.version == Sd1)
      && (!i.timeout && pattern ==> n.version == Sd2)
      && (i.timeout || pattern ==> n.phase == SdPowerup && n.istage == 1)
  {
    hide Byte, NextCount, NextRca, NextHighSpeed, NextHighCapacity, NextWriteProtected, NextPushPull, NextProt, NextCcc;
    BitValues(s, i);
  }

  /** The SD loop: given up after a thousand stages or on an error, except that a version 1 card without an
      answer to the first application command is asked as an MMC card; it ends at an answer with bit 31. */
  lemma SdPowerupExactly(h: Host, s: State, i: Input)
    requires s.phase == SdPowerup && s.istage > 0
    ensures var n := Next(h, s, i); var silent := s.istage == 1 && s.version == Sd1 && i.timeout;
      var answered := s.istage % 3 == 2 && !i.error;
      && (Refused(h, s, i) <==> s.istage > 1000 || (i.error && !silent))
      && (n.phase == MmcPowerup <==> silent)
      && (n.phase == AllSendCid <==> s.istage <= 1000 && answered && i.resp.w0 / 0x8000_0000 == 1)
      && (n.highCapacity <==>
            s.highCapacity || (s.istage <= 1000 && answered && i.resp.w0 / 0x4000_0000 % 2 == 1))
  {
    hide Byte, Bit, NextCount, NextRca, NextHighSpeed, NextWriteProtected, NextPushPull, NextProt, NextCcc;
    BitValues(s, i);
  }

  /** The MMC loop: given up after three seconds or on an error once the card was offered a window; it ends at
      an answer with bit 31. */
  lemma MmcPowerupExactly(h: Host, s: State, i: Input)
    requires s.phase == MmcPowerup
    ensures var n := Next(h, s, i); var late := h.powerDelay * s.istage > 3000 || s.istage > 3000;
      var answered := s.istage >= 2 && !i.error && !late;
      && (Refused(h, s, i) <==> late || (s.istage >= 2 && i.error))
      && (n.phase == AllSendCid <==> answered && i.resp.w0 / 0x8000_0000 == 1)
      && (n.version == (if n.phase == AllSendCid then Mmc else s.version))
      && (n.highCapacity <==> s.highCapacity || (answered && i.resp.w0 / 0x4000_0000 % 2 == 1))
  {
    hide Byte, Bit, NextCount, NextRca, NextHighSpeed, NextWriteProtected, NextPushPull, NextProt, NextCcc;
    BitValues(s, i);
    if !TimedOut(h, s) && !(s.istage >= 2 && i.error) {
      assert !Refused(h, s, i);
    }
  }

  /** The tail: which command follows, when the call does not fail. */
  lemma TailExactly(h: Host, s: State, i: Input)
    requires !Refused(h, s, i)
    ensures var p := NextPhase(h, s, i); var wide := s.prot >= 4 && (h.bus8 || h.bus4);
      match s.phase
      case CheckSts =>
        if s.version == Mmc then p == (if s.prot >= 4 then ExtCsd else Final)
        else p == if h.forcedBus == Some(4) || (h.forcedBus == None && h.bus4) then SetBwApp else SendScr
      case SetBw => p == if !h.noHighSpeed && h.pio && i.sized then SendScr else Final
      case ParseScr => p == if Byte(i, 0) % 16 >= 1 && i.sized && i.pioReady then CheckMode else Final
      case CheckMode =>
        p == if !i.error && h.highSpeed && Byte(i, 13) / 2 % 2 == 1 && s.ccc / 1024 % 2 == 1 then SwitchMode else Final
      case ExtCsd => p == if h.highSpeed then SwitchHs else if wide then SwitchBw else Final
      case SwitchHs => p == if wide then SwitchBw else Final
      case _ => true
  {
    hide Byte, Bit, CardOffersHighSpeed, CardHasSwitch;
    BitValues(s, i);
  }

  /** The extended register is taken only from a card with a speed type, and a wait that times out fails. */
  lemma ExtCsdRefused(h: Host, s: State, i: Input)
    requires s.phase == ExtCsd
    ensures Refused(h, s, i) <==>
      || i.error || !i.pioRead || Byte(i, 196) % 32 == 0
      || (!h.highSpeed && s.prot >= 4 && (h.bus8 || h.bus4) && h.busyBug && !i.ready)
  {
    hide Byte;
  }

  lemma ExtCsdLeft(h: Host, s: State, i: Input)
    requires s.phase == ExtCsd && !i.error && i.pioRead && Byte(i, 196) % 32 != 0
    ensures NextPhase(h, s, i) in {SwitchHs, SwitchBw, Final}
  {
    hide Byte;
  }

  /** The register's partitions are announced exactly when it supports them and they are complete. */
  lemma PartitionsExactly(h: Host, s: State, i: Input)
    requires s.phase == ExtCsd && !i.error && i.pioRead && Byte(i, 196) % 32 != 0
    ensures Command(6, 0x03AF_0101, s.pushPull) in Sent(h, s, i) <==> Byte(i, 160) % 2 == 1 && Byte(i, 155) % 2 == 1
  {
    hide Byte, Partitioned, Polls, NextPhase, Waits, Silent, Argument;
    BitValues(s, i);
    ExtCsdLeft(h, s, i);
    PollsExactly(h, s, i);
    NotPartitions(h, Next(h, s, i));
  }

  /** No command awaited later announces partitions. */
  lemma NotPartitions(h: Host, n: State)
    requires n.phase in {SwitchHs, SwitchBw, Final}
    ensures Argument(h, n) != 0x03AF_0101
  {
    hide RcaArg, SdOcr, MmcOcr;
  }

  /** A wait polls the card at least once, and only for a controller that cannot see it busy. */
  lemma PollsExactly(h: Host, s: State, i: Input)
    ensures |Polls(h, s, i)| == if h.busyBug then 1 + i.polls else 0
    ensures forall c :: c in Polls(h, s, i) ==> c.opcode == 13
  {
    hide RcaArg;
  }

  /** Power cycling: nothing without a card or power; the cycles are counted, the reset follows the one past the
      retry count, and only the first clears the flags. */
  lemma StartExactly(h: Host, s: State, i: Input)
    requires s.phase == Start
    ensures var n := Next(h, s, i);
      && (Refused(h, s, i) <==> !i.present || !i.powered)
      && (i.present && i.powered ==>
            if s.count >= h.powerRetry then n.phase == GoIdle && n.count == 0
            else n.phase == Start && n.count == s.count + 1)
      && (n.highSpeed <==> s.highSpeed && s.count > 0) && (n.highCapacity <==> s.highCapacity && s.count > 0)
      && n.ccc == (if s.count == 0 then 0 else s.ccc) && n.prot == (if s.count == 0 then 0 else s.prot)
  {
    hide NextStage, NextRca, NextVersion, NextWriteProtected, NextPushPull;
  }

  /** Which calls fail before their command: those of an interrupt with an error, except where the card may
      simply not know the command, and those whose data port or wait fails. */
  lemma RefusedExactly(h: Host, s: State, i: Input)
    ensures
      match s.phase
      case SendScr => Refused(h, s, i) <==> i.error || !i.pioReady
      case ParseScr => Refused(h, s, i) <==> i.error || !i.pioRead
      case CheckSts => Refused(h, s, i) <==> i.error || (s.version == Mmc && s.prot >= 4 && !i.pioReady)
      case CheckMode =>
        var fast := h.highSpeed && Byte(i, 13) / 2 % 2 == 1 && s.ccc / 1024 % 2 == 1;
        Refused(h, s, i) <==> !i.error && (!i.pioRead || (fast && !i.pioReady))
      case SwitchMode => Refused(h, s, i) <==> i.error || !i.pioRead
      case SwitchHs =>
        Refused(h, s, i) <==> i.error || (s.prot >= 4 && (h.bus8 || h.bus4) && h.busyBug && !i.ready)
      case SwitchBw => Refused(h, s, i) <==> i.error || (h.busyBug && !i.ready)
      case Done => Refused(h, s, i)
      case Start => true
      case CardVersion => true
      case SdPowerup => true
      case MmcPowerup => true
      case ExtCsd => true
      case _ => Refused(h, s, i) <==> i.error
  {
    hide Byte, Bit, CardOffersHighSpeed, CardHasSwitch;
    BitValues(s, i);
  }

  /** A call that fails issues no command but those it completes, and one that issues a command succeeds exactly
      when the controller takes it. */
  lemma SucceedsExactly(h: Host, s: State, i: Input)
    ensures Refused(h, s, i) ==> !Ok(h, s, i) && Sent(h, s, i) == Completed(h, s, i)
    ensures !Refused(h, s, i) && s.phase != Final && !(s.phase == GoIdle && !i.command) ==>
      (Ok(h, s, i) <==> i.sent) && |Sent(h, s, i)| == |Completed(h, s, i)| + 1
    ensures s.phase == Final ==> (Ok(h, s, i) <==> !i.error) && Next(h, s, i) == s.(phase := Done)
  {
    hide Completed, SkipsHighSpeed, Wide, WideMmc, Answered, TimedOut, CardIs26Or52;
  }

  // ----- the registers' bits in the words of the response -----

  lemma LowWord(r: Response)
    ensures Bits(Register(r), 13, 13) == r.w0 / 0x2000 % 2 && Bits(Register(r), 12, 12) == r.w0 / 0x1000 % 2
  {
    hide Register;
    InWord(r, 0, 13, 1);
    InWord(r, 0, 12, 1);
    Pow2Values();
    PowerValues();
    assert Field(r.w0, 13, 1) == r.w0 / Pow2(13) % Pow2(1);
    assert Field(r.w0, 12, 1) == r.w0 / Pow2(12) % Pow2(1);
  }

  lemma LockBits(r: Response)
    ensures var mmc, sd := MmcLayout(Register(r)), SdLayout(Register(r));
      && mmc.permWriteProtect == sd.permWriteProtect == r.w0 / 0x2000 % 2
      && mmc.tmpWriteProtect == sd.tmpWriteProtect == r.w0 / 0x1000 % 2
  {
    hide Bits, Register;
    LowWord(r);
  }

  /** The card's register protects it with bit 12 or bit 13, whatever its kind; only the power-up, which takes
      the lock switch, and the reset of the flags change the flag otherwise. */
  lemma LockExactly(h: Host, s: State, i: Input)
    ensures Next(h, s, i).writeProtected <==>
      match s.phase
      case Start => if i.present && h.lockSwitch then i.locked else s.writeProtected && s.count > 0
      case SendCsd =>
        s.writeProtected || (!i.error && (i.resp.w0 / 0x1000 % 2 == 1 || i.resp.w0 / 0x2000 % 2 == 1))
      case _ => s.writeProtected
  {
    hide MmcLayout, SdLayout, Register, NextPhase, NextStage, NextCount, NextRca, NextVersion, NextHighSpeed,
      NextHighCapacity, NextPushPull, NextProt, NextCcc;
    LockBits(i.resp);
  }

  lemma KindBits(r: Response)
    ensures MmcLayout(Register(r)).prot == r.w3 / 0x400_0000 % 16 && SdLayout(Register(r)).ccc == r.w2 / 0x10_0000
  {
    hide Register;
    InWord(r, 3, 26, 4);
    UnmaskedSlices(r);
    PowerValues();
    Pow2Values();
    assert Pow2(4) == 16 && Pow2(6) == 64;
    Pow2Sum(20, 6);
    hide Bits;
  }

  /** The protocol version and the command classes that steer the rest are the register's. */
  lemma KindExactly(h: Host, s: State, i: Input)
    requires s.phase == SendCsd && !i.error
    ensures var n := Next(h, s, i);
      && (s.version == Mmc ==> n.prot == i.resp.w3 / 0x400_0000 % 16 && n.ccc == s.ccc)
      && (s.version != Mmc ==> n.ccc == i.resp.w2 / 0x10_0000 && n.prot == s.prot)
  {
    hide MmcLayout, SdLayout, Register, NextPhase, NextStage, NextCount, NextRca, NextVersion, NextHighSpeed,
      NextHighCapacity, NextPushPull, NextWriteProtected;
    KindBits(i.resp);
  }
}
