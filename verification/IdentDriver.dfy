/** The identification handlers as the driver runs them, one method for each, updating the adapter's
    extension record. Every method is proved to be the step that the runs are about. */
module IdentDriver {
  import opened Csd
  import opened IdentModel
  import opened Powers
  import opened Words

  class Driver {
    const host: Host
    const csd: Decoder
    /** The identification fields of the adapter's extension. */
    var ext: State
    ghost var trace: seq<Command>

    constructor (host: Host, csd: Decoder)
      ensures this.host == host && this.csd == csd && trace == []
      ensures ext.phase == Done && ext.istage == ext.count == 0
      ensures !ext.highSpeed && !ext.highCapacity && !ext.writeProtected
    {
      this.host, this.csd := host, csd;
      ext := State(Done, 0, 0, Sd1, 0, false, false, false, false, 0, 0);
      trace := [];
    }

    /** Issues the command that the new state awaits; `log` and `s` are from the call's entry. */
    method SendCommand(ghost s: State, ghost log: seq<Command>, i: Input, opcode: uint8, argument: uint32)
      returns (ok: bool)
      requires ext == Next(host, s, i) && trace == log + Completed(host, s, i) && !Silent(host, s, i)
      requires opcode == Opcode(ext) && argument == Argument(host, ext)
      modifies this`trace
      ensures ok == Ok(host, s, i) && trace == log + Sent(host, s, i)
    {
      hide Next, Opcode, Argument, Refused, Completed;
      Issue(opcode, argument);
      ok := i.sent;
    }

    method Issue(opcode: uint8, argument: uint32)
      modifies this`trace
      ensures trace == old(trace) + [Command(opcode, argument, ext.pushPull)]
    {
      trace := trace + [Command(opcode, argument, ext.pushPull)];
    }

    /** Every path sets the clock and the block length last. */
    method SetBlockLength(ghost s: State, ghost log: seq<Command>, i: Input) returns (ok: bool)
      requires ext.(phase := Final) == Next(host, s, i)
      requires trace == log + Completed(host, s, i) && !Silent(host, s, i)
      modifies this`ext, this`trace
      ensures ext == Next(host, s, i) && ok == Ok(host, s, i) && trace == log + Sent(host, s, i)
    {
      hide Next, Completed, Silent, Sent, Ok;
      ext := ext.(phase := Final);
      ok := SendCommand(s, log, i, SET_BLOCKLEN, DFLT_BLKSIZE);
    }

    /** Polls the card's status until it is ready or the time is up. */
    method WaitCardReady(i: Input) returns (ok: bool)
      modifies this`trace
      ensures ok == Waited(host, i) && trace == old(trace) + Polls(host, ext, i)
    {
      if !host.busyBug {
        return true;
      }
      var n, status := 0, Command(SEND_STATUS, RcaArg(ext), ext.pushPull);
      while n < 1 + i.polls
        invariant n <= 1 + i.polls
        invariant trace == old(trace) + seq(n, _ => status)
      {
        Issue(SEND_STATUS, RcaArg(ext));
        n := n + 1;
      }
      ok := i.ready;
    }

    method ConfigBusWidth(ghost s: State, ghost log: seq<Command>, i: Input) returns (ok: bool)
      requires ext.(phase := SwitchBw) == Next(host, s, i)
      requires trace + Polls(host, ext, i) == log + Completed(host, s, i)
      requires Refused(host, s, i) == Silent(host, s, i) == !Waited(host, i)
      modifies this`ext, this`trace
      ensures ext == Next(host, s, i) && ok == Ok(host, s, i) && trace == log + Sent(host, s, i)
    {
      hide Next, Completed, Silent, Refused, Polls, Waited;
      var value := 0;
      match host.forcedBus {
        case Some(width) =>
          if width == 8 {
            value := 2;
          } else if width == 4 {
            value := 1;
          }
        case None =>
          if host.bus8 {
            value := 2;
          } else if host.bus4 {
            value := 1;
          }
      }
      Refusal(host, s, i);
      ext := ext.(phase := SwitchBw);
      SamePolls(host, old(ext), ext, i);
      ok := WaitCardReady(i);
      if !ok {
        return;
      }
      ok := SendCommand(s, log, i, SWITCH, BusWidthArg(value));
    }

    // ----- the handlers -----

    /** Counts a power cycle; the reset is awaited after the last. */
    method CountCycle(ghost s: State, ghost log: seq<Command>, i: Input) returns (ok: bool)
      requires s.phase == Start && i.present && i.powered
      requires ext == Cycled(host, s, i) && trace == log
      modifies this`ext, this`trace
      ensures ext == Next(host, s, i) && ok == Ok(host, s, i) && trace == log + Sent(host, s, i)
    {
      hide Next, Ok, Sent, Completed, RcaArg, Refused, Silent, NextPhase, Cycled;
      Refusal(host, s, i);
      StartCall(host, s, i);
      CycledKeeps(host, s, i);
      ext := ext.(count := ext.count + 1);
      if ext.count > host.powerRetry {
        ext := ext.(phase := GoIdle, count := 0);
      }
      ok := SendCommand(s, log, i, GO_IDLE_STATE, 0);
    }

    /** Half of an SD card's loop: the operating condition, or its answer. */
    method SdLoop(ghost s: State, ghost log: seq<Command>, i: Input, offer: uint32) returns (ok: bool)
      requires s.phase == SdPowerup && 0 < s.istage <= 1000 && !MaybeMmc(s, i) && trace == log
      requires ext == s.(istage := s.istage + if s.istage % 3 == 0 then 1 else 0)
      requires offer == if ext.istage == 1 then 0 else SdOcr(host)
      modifies this`ext, this`trace
      ensures ext == Next(host, s, i) && ok == Ok(host, s, i) && trace == log + Sent(host, s, i)
    {
      hide Next, Ok, Sent, Completed, RcaArg, Refused, Silent, NextPhase, Bit;
      Refusal(host, s, i);
      SdPowerupCall(host, s, i);
      Stages(s.istage);
      if i.error {
        return false;
      }
      if ext.istage % 3 == 1 {
        var ocr := offer + if ext.version == Sd2 then HIGH_CAPACITY else 0;
        ext := ext.(istage := ext.istage + 1);
        ok := SendCommand(s, log, i, SD_SEND_OP_COND, ocr);
      } else {
        if Bit(i.resp.w0, 30) {
          ext := ext.(highCapacity := true);
        }
        if Bit(i.resp.w0, 31) {
          ext := ext.(phase := AllSendCid, istage := 0);
          ok := SendCommand(s, log, i, ALL_SEND_CID, 0);
        } else {
          ext := ext.(istage := ext.istage + 1);
          ok := SendCommand(s, log, i, APP_CMD, 0);
        }
      }
    }

    method IdentStart(i: Input) returns (ok: bool)
      requires ext.phase == Start
      modifies this, csd
      ensures ext == Next(host, old(ext), i)
      ensures ok == Ok(host, old(ext), i) && trace == old(trace) + Sent(host, old(ext), i)
    {
      hide Next, Ok, Sent, Completed, RcaArg, Refused, Silent, NextPhase;
      ghost var s, log := ext, trace;
      Refusal(host, s, i);
      StartCall(host, s, i);
      if ext.count == 0 {
        ext := ext.(writeProtected := false, highSpeed := false, highCapacity := false, pushPull := true);
        ext := ext.(prot := 0, ccc := 0);
      }
      if !i.present {
        return false;
      }
      if host.lockSwitch {
        ext := ext.(writeProtected := i.locked);
      }
      assert ext == Cycled(host, s, i);
      if !i.powered {
        return false;
      }
      ok := CountCycle(s, log, i);
    }

    method IdentGoIdle(i: Input) returns (ok: bool)
      requires ext.phase == GoIdle
      modifies this, csd
      ensures ext == Next(host, old(ext), i)
      ensures ok == Ok(host, old(ext), i) && trace == old(trace) + Sent(host, old(ext), i)
    {
      hide Next, Ok, Sent, Completed, RcaArg;
      ghost var s, log := ext, trace;
      Refusal(host, s, i);
      GoIdleCall(host, s, i);
      if i.error {
        return false;
      }
      if i.command {
        ext := ext.(phase := CardVersion, istage := 0);
        ok := SendCommand(s, log, i, IF_COND, VOLTAGE_PATTERN);
        return;
      }
      ok := true;
    }

    method IdentSdPowerup(i: Input) returns (ok: bool)
      requires ext.phase == SdPowerup
      modifies this, csd
      ensures ext == Next(host, old(ext), i)
      ensures ok == Ok(host, old(ext), i) && trace == old(trace) + Sent(host, old(ext), i)
    {
      hide Next, Ok, Sent, Completed, RcaArg, Refused, Silent, NextPhase, Bit;
      ghost var s, log := ext, trace;
      Refusal(host, s, i);
      SdPowerupCall(host, s, i);
      Stages(s.istage);
      if ext.istage > 1000 {
        return false;
      }
      if ext.istage % 3 == 0 {
        ext := ext.(istage := ext.istage + 1);
        if ext.istage == 1 {
          ok := SendCommand(s, log, i, APP_CMD, 0);
          return;
        }
      }
      var ocr := if host.v18 && host.v30 && host.v33 then 0xFF_8000
                 else if host.v18 then 0x100_0000
                 else if host.v30 then 0x4_0000
                 else 0x20_0000;
      if ext.istage == 1 {
        if ext.version == Sd1 && i.timeout {
          ext := ext.(phase := MmcPowerup, istage := 0, pushPull := false);
          ok := SendCommand(s, log, i, GO_IDLE_STATE, 0);
          return;
        } else if i.error {
          return false;
        }
        ocr := 0;
      }
      ok := SdLoop(s, log, i, ocr);
    }

    method IdentCardVersion(i: Input) returns (ok: bool)
      requires ext.phase == CardVersion
      modifies this, csd
      ensures ext == Next(host, old(ext), i)
      ensures ok == Ok(host, old(ext), i) && trace == old(trace) + Sent(host, old(ext), i)
    {
      hide Next, Ok, Sent, Completed, RcaArg, Field;
      ghost var s, log := ext, trace;
      Refusal(host, s, i);
      CardVersionCall(host, s, i);
      if i.timeout {
        ext := ext.(version := Sd1);
      } else if !i.error && Field(i.resp.w0, 0, 13) == VOLTAGE_PATTERN {
        ext := ext.(version := Sd2);
      } else {
        return false;
      }
      ext := ext.(phase := SdPowerup, istage := 0);
      ok := IdentSdPowerup(i);
    }

    method IdentMmcPowerup(i: Input) returns (ok: bool)
      requires ext.phase == MmcPowerup
      modifies this, csd
      ensures ext == Next(host, old(ext), i)
      ensures ok == Ok(host, old(ext), i) && trace == old(trace) + Sent(host, old(ext), i)
    {
      hide Next, Ok, Sent, Completed, RcaArg, Refused, Silent, NextPhase, Bit, TimedOut;
      ghost var s, log := ext, trace;
      Refusal(host, s, i);
      MmcPowerupCall(host, s, i);
      TimedOutExactly(host, s);
      if host.powerDelay * ext.istage > 3000 || ext.istage > 3000 {
        return false;
      }
      ext := ext.(istage := ext.istage + 1);
      if ext.istage > 2 {
        if i.error {
          return false;
        }
        if Bit(i.resp.w0, 30) {
          ext := ext.(highCapacity := true);
        }
        if Bit(i.resp.w0, 31) {
          ext := ext.(phase := AllSendCid, istage := 0, version := Mmc);
          ok := SendCommand(s, log, i, ALL_SEND_CID, 0);
          return;
        }
      }
      var ocr: uint32 := 0;
      if ext.istage > 1 {
        ocr := HIGH_CAPACITY;
        if host.v18 {
          ocr := ocr + 0x80;
        }
        if host.v30 || host.v33 {
          ocr := ocr + 0xFF_8000;
        }
      }
      ok := SendCommand(s, log, i, SEND_OP_COND, ocr);
    }

    method IdentAllSendCid(i: Input) returns (ok: bool)
      requires ext.phase == AllSendCid
      modifies this, csd
      ensures ext == Next(host, old(ext), i)
      ensures ok == Ok(host, old(ext), i) && trace == old(trace) + Sent(host, old(ext), i)
    {
      hide Next, Ok, Sent, Completed, RcaArg;
      ghost var s, log := ext, trace;
      Refusal(host, s, i);
      AddressCall(host, s, i);
      if i.error {
        return false;
      }
      ext := ext.(phase := SetAddress, rca := if ext.version != Mmc then 0 else 2);
      ok := SendCommand(s, log, i, SET_RELATIVE_ADDR, RcaArg(ext));
    }

    method IdentSetAddress(i: Input) returns (ok: bool)
      requires ext.phase == SetAddress
      modifies this, csd
      ensures ext == Next(host, old(ext), i)
      ensures ok == Ok(host, old(ext), i) && trace == old(trace) + Sent(host, old(ext), i)
    {
      hide Next, Ok, Sent, Completed, RcaArg;
      ghost var s, log := ext, trace;
      Refusal(host, s, i);
      AddressCall(host, s, i);
      if i.error {
        return false;
      }
      ext := ext.(pushPull := true);
      if ext.version != Mmc {
        ext := ext.(rca := i.resp.w0 / 0x1_0000);
      }
      ext := ext.(phase := SendCid);
      ok := SendCommand(s, log, i, SEND_CID, RcaArg(ext));
    }

    method IdentSendCid(i: Input) returns (ok: bool)
      requires ext.phase == SendCid
      modifies this, csd
      ensures ext == Next(host, old(ext), i)
      ensures ok == Ok(host, old(ext), i) && trace == old(trace) + Sent(host, old(ext), i)
    {
      hide Next, Ok, Sent, Completed, RcaArg;
      ghost var s, log := ext, trace;
      Refusal(host, s, i);
      PlainCall(host, s, i);
      if i.error {
        return false;
      }
      ext := ext.(phase := SendCsd);
      ok := SendCommand(s, log, i, SEND_CSD, RcaArg(ext));
    }

    method IdentSendCsd(i: Input) returns (ok: bool)
      requires ext.phase == SendCsd
      modifies this, csd
      ensures ext == Next(host, old(ext), i)
      ensures ok == Ok(host, old(ext), i) && trace == old(trace) + Sent(host, old(ext), i)
    {
      hide Next, Ok, Sent, Completed, RcaArg, MmcLayout, SdLayout, Register, MmcBlocks, SdBlocks, MmcBlockSize;
      ghost var s, log := ext, trace;
      Refusal(host, s, i);
      SendCsdCall(host, s, i);
      if i.error {
        return false;
      }
      csd.writeProtected := ext.writeProtected;
      if ext.version != Mmc {
        csd.ParseSd(i.resp);
        ext := ext.(ccc := csd.sd.ccc);
      } else {
        csd.ParseMmc(i.resp);
        ext := ext.(prot := csd.mmc.prot);
      }
      ext := ext.(phase := SelDesCard, writeProtected := csd.writeProtected);
      ok := SendCommand(s, log, i, SEL_DES_CARD, RcaArg(ext));
    }

    method IdentSelDesCard(i: Input) returns (ok: bool)
      requires ext.phase == SelDesCard
      modifies this, csd
      ensures ext == Next(host, old(ext), i)
      ensures ok == Ok(host, old(ext), i) && trace == old(trace) + Sent(host, old(ext), i)
    {
      hide Next, Ok, Sent, Completed, RcaArg;
      ghost var s, log := ext, trace;
      Refusal(host, s, i);
      PlainCall(host, s, i);
      if i.error {
        return false;
      }
      ext := ext.(phase := CheckSts);
      ok := SendCommand(s, log, i, SEND_STATUS, RcaArg(ext));
    }

    method IdentStatusDone(i: Input) returns (ok: bool)
      requires ext.phase == CheckSts
      modifies this, csd
      ensures ext == Next(host, old(ext), i)
      ensures ok == Ok(host, old(ext), i) && trace == old(trace) + Sent(host, old(ext), i)
    {
      hide Next, Ok, Sent, Completed, RcaArg;
      ghost var s, log := ext, trace;
      Refusal(host, s, i);
      PlainCall(host, s, i);
      if i.error {
        return false;
      }
      if ext.version == Mmc {
        if ext.prot >= MMC_PROT_4 {
          if !i.pioReady {
            return false;
          }
          ext := ext.(phase := ExtCsd);
          ok := SendCommand(s, log, i, SEND_EXT_CSD, 0);
        } else {
          ok := SetBlockLength(s, log, i);
        }
        return;
      }
      var busWidth: nat;
      match host.forcedBus {
        case Some(width) => busWidth := width;
        case None => busWidth := if host.bus4 then 4 else 1;
      }
      if busWidth == 4 {
        ext := ext.(phase := SetBwApp);
        ok := SendCommand(s, log, i, APP_CMD, RcaArg(ext));
        return;
      }
      ext := ext.(phase := SendScr);
      ok := SendCommand(s, log, i, APP_CMD, RcaArg(ext));
    }

    method IdentSetBwApp(i: Input) returns (ok: bool)
      requires ext.phase == SetBwApp
      modifies this, csd
      ensures ext == Next(host, old(ext), i)
      ensures ok == Ok(host, old(ext), i) && trace == old(trace) + Sent(host, old(ext), i)
    {
      hide Next, Ok, Sent, Completed, RcaArg;
      ghost var s, log := ext, trace;
      Refusal(host, s, i);
      PlainCall(host, s, i);
      if i.error {
        return false;
      }
      ext := ext.(phase := SetBw);
      ok := SendCommand(s, log, i, SWITCH, BUS_4BIT);
    }

    method IdentSetBw(i: Input) returns (ok: bool)
      requires ext.phase == SetBw
      modifies this, csd
      ensures ext == Next(host, old(ext), i)
      ensures ok == Ok(host, old(ext), i) && trace == old(trace) + Sent(host, old(ext), i)
    {
      hide Next, Ok, Sent, Completed, RcaArg;
      ghost var s, log := ext, trace;
      Refusal(host, s, i);
      PlainCall(host, s, i);
      if i.error {
        return false;
      }
      if host.noHighSpeed || !host.pio || !i.sized {
        ok := SetBlockLength(s, log, i);
        return;
      }
      ext := ext.(phase := SendScr);
      ok := SendCommand(s, log, i, APP_CMD, RcaArg(ext));
    }

    method IdentSendScr(i: Input) returns (ok: bool)
      requires ext.phase == SendScr
      modifies this, csd
      ensures ext == Next(host, old(ext), i)
      ensures ok == Ok(host, old(ext), i) && trace == old(trace) + Sent(host, old(ext), i)
    {
      hide Next, Ok, Sent, Completed, RcaArg;
      ghost var s, log := ext, trace;
      Refusal(host, s, i);
      PlainCall(host, s, i);
      if i.error {
        return false;
      }
      if !i.pioReady {
        return false;
      }
      ext := ext.(phase := ParseScr);
      ok := SendCommand(s, log, i, SD_SEND_SCR, 0);
    }

    method IdentParseScr(i: Input) returns (ok: bool)
      requires ext.phase == ParseScr
      modifies this, csd
      ensures ext == Next(host, old(ext), i)
      ensures ok == Ok(host, old(ext), i) && trace == old(trace) + Sent(host, old(ext), i)
    {
      hide Next, Ok, Sent, Completed, RcaArg;
      ghost var s, log := ext, trace;
      Refusal(host, s, i);
      PlainCall(host, s, i);
      if i.error {
        return false;
      }
      if !i.pioRead {
        return false;
      }
      var sdSpec := Byte(i, 0) % 16;
      if sdSpec < 1 || !i.sized {
        ok := SetBlockLength(s, log, i);
        return;
      }
      if !i.pioReady {
        ok := SetBlockLength(s, log, i);
        return;
      }
      ext := ext.(phase := CheckMode);
      ok := SendCommand(s, log, i, SWITCH, CHECK_HIGH_SPEED);
    }

    method IdentCheckMode(i: Input) returns (ok: bool)
      requires ext.phase == CheckMode
      modifies this, csd
      ensures ext == Next(host, old(ext), i)
      ensures ok == Ok(host, old(ext), i) && trace == old(trace) + Sent(host, old(ext), i)
    {
      hide Next, Ok, Sent, Completed, RcaArg, Bit;
      ghost var s, log := ext, trace;
      Refusal(host, s, i);
      PlainCall(host, s, i);
      if i.error {
        ok := SetBlockLength(s, log, i);
        return;
      }
      if !i.pioRead {
        return false;
      }
      if !Bit(Byte(i, 13), 1) || !Bit(ext.ccc, 10) || !host.highSpeed {
        ok := SetBlockLength(s, log, i);
        return;
      }
      if !i.pioReady {
        return false;
      }
      ext := ext.(phase := SwitchMode);
      ok := SendCommand(s, log, i, SWITCH, SWITCH_HIGH_SPEED);
    }

    method IdentSwitchMode(i: Input) returns (ok: bool)
      requires ext.phase == SwitchMode
      modifies this, csd
      ensures ext == Next(host, old(ext), i)
      ensures ok == Ok(host, old(ext), i) && trace == old(trace) + Sent(host, old(ext), i)
    {
      hide Next, Ok, Sent, Completed, RcaArg;
      ghost var s, log := ext, trace;
      Refusal(host, s, i);
      SwitchModeCall(host, s, i);
      if i.error {
        return false;
      }
      if !i.pioRead {
        return false;
      }
      if Byte(i, 16) % 16 == 1 {
        ext := ext.(highSpeed := true);
      }
      ok := SetBlockLength(s, log, i);
    }

    method IdentReadExtCsd(i: Input) returns (ok: bool)
      requires ext.phase == ExtCsd
      modifies this, csd
      ensures ext == Next(host, old(ext), i)
      ensures ok == Ok(host, old(ext), i) && trace == old(trace) + Sent(host, old(ext), i)
    {
      hide Next, Ok, Sent, Completed, RcaArg, Bit, Polls;
      ghost var s, log := ext, trace;
      Refusal(host, s, i);
      ExtCsdCall(host, s, i);
      if i.error {
        return false;
      }
      if !i.pioRead {
        return false;
      }
      if Byte(i, 196) % 32 == 0 {
        return false;
      }
      if Bit(Byte(i, 160), 0) && Bit(Byte(i, 155), 0) {
        Issue(SWITCH, ERASE_GROUP_DEF);
      }
      if host.highSpeed {
        ext := ext.(phase := SwitchHs);
        ok := SendCommand(s, log, i, SWITCH, HS_TIMING);
      } else if ext.prot >= MMC_PROT_4 && (host.bus8 || host.bus4) {
        ok := ConfigBusWidth(s, log, i);
      } else {
        ok := SetBlockLength(s, log, i);
      }
    }

    method IdentSwitchModeHs(i: Input) returns (ok: bool)
      requires ext.phase == SwitchHs
      modifies this, csd
      ensures ext == Next(host, old(ext), i)
      ensures ok == Ok(host, old(ext), i) && trace == old(trace) + Sent(host, old(ext), i)
    {
      hide Next, Ok, Sent, Completed, RcaArg, Polls;
      ghost var s, log := ext, trace;
      Refusal(host, s, i);
      SwitchHsCall(host, s, i);
      if i.error {
        return false;
      }
      ext := ext.(highSpeed := true);
      SamePolls(host, s, ext, i);
      if ext.prot >= MMC_PROT_4 && (host.bus8 || host.bus4) {
        ok := ConfigBusWidth(s, log, i);
      } else {
        ok := SetBlockLength(s, log, i);
      }
    }

    method IdentSwitchBusWidth(i: Input) returns (ok: bool)
      requires ext.phase == SwitchBw
      modifies this, csd
      ensures ext == Next(host, old(ext), i)
      ensures ok == Ok(host, old(ext), i) && trace == old(trace) + Sent(host, old(ext), i)
    {
      hide Next, Ok, Sent, Completed, RcaArg, Polls;
      ghost var s, log := ext, trace;
      Refusal(host, s, i);
      SwitchBwCall(host, s, i);
      if i.error {
        return false;
      }
      ext := ext.(phase := Final);
      SamePolls(host, s, ext, i);
      ok := WaitCardReady(i);
      if !ok {
        return;
      }
      ok := SetBlockLength(s, log, i);
    }

    /** One call of the handler is one step. */
    method CardIdent(i: Input) returns (ok: bool)
      modifies this, csd
      ensures ext == Next(host, old(ext), i)
      ensures ok == Ok(host, old(ext), i) && trace == old(trace) + Sent(host, old(ext), i)
    {
      hide Next, Ok, Sent;
      match ext.phase {
        case Start => ok := IdentStart(i);
        case GoIdle => ok := IdentGoIdle(i);
        case CardVersion => ok := IdentCardVersion(i);
        case SdPowerup => ok := IdentSdPowerup(i);
        case MmcPowerup => ok := IdentMmcPowerup(i);
        case AllSendCid => ok := IdentAllSendCid(i);
        case SetAddress => ok := IdentSetAddress(i);
        case SendCid => ok := IdentSendCid(i);
        case SendCsd => ok := IdentSendCsd(i);
        case SelDesCard => ok := IdentSelDesCard(i);
        case SendScr => ok := IdentSendScr(i);
        case ParseScr => ok := IdentParseScr(i);
        case CheckMode => ok := IdentCheckMode(i);
        case SwitchMode => ok := IdentSwitchMode(i);
        case CheckSts => ok := IdentStatusDone(i);
        case SetBwApp => ok := IdentSetBwApp(i);
        case SetBw => ok := IdentSetBw(i);
        case ExtCsd => ok := IdentReadExtCsd(i);
        case SwitchHs => ok := IdentSwitchModeHs(i);
        case SwitchBw => ok := IdentSwitchBusWidth(i);
        case Final =>
          LastCalls(host, ext, i);
          ext := ext.(phase := Done);
          ok := !i.error;
        case Done =>
          LastCalls(host, ext, i);
          ok := false;
      }
    }
  }

  // ----- the step, handler by handler -----

  /** Calls that only move to the next phase. */
  lemma PlainCall(h: Host, s: State, i: Input)
    requires s.phase in {SendCid, SelDesCard, CheckSts, SetBwApp, SetBw, SendScr, ParseScr, CheckMode}
    ensures Completed(h, s, i) == []
    ensures Next(h, s, i) == if Refused(h, s, i) then s else s.(phase := NextPhase(h, s, i))
  {
    hide Refused;
  }

  function Cleared(s: State): State {
    s.(writeProtected := false, highSpeed := false, highCapacity := false, pushPull := true, prot := 0, ccc := 0)
  }

  function Cycled(h: Host, s: State, i: Input): State {
    var c := if s.count == 0 then Cleared(s) else s;
    if i.present && h.lockSwitch then c.(writeProtected := i.locked) else c
  }

  lemma StartCall(h: Host, s: State, i: Input)
    requires s.phase == Start
    ensures Completed(h, s, i) == [] && Silent(h, s, i) == Refused(h, s, i) == (!i.present || !i.powered)
    ensures
      var c := Cycled(h, s, i);
      Next(h, s, i) ==
        if !i.present || !i.powered then c
        else if s.count + 1 > h.powerRetry then c.(phase := GoIdle, count := 0)
        else c.(count := s.count + 1)
  {
  }

  lemma GoIdleCall(h: Host, s: State, i: Input)
    requires s.phase == GoIdle
    ensures Completed(h, s, i) == []
    ensures Next(h, s, i) == if i.error || !i.command then s else s.(phase := CardVersion, istage := 0)
    ensures !i.error && !i.command ==> Ok(h, s, i) && Sent(h, s, i) == []
  {
  }

  lemma CardVersionNext(h: Host, s: State, i: Input)
    requires s.phase == CardVersion
    ensures Next(h, s, i) ==
      if Answered(i) then s.(phase := SdPowerup, istage := 1, version := if i.timeout then Sd1 else Sd2) else s
    ensures Silent(h, s, i) == Refused(h, s, i) == !Answered(i) && Completed(h, s, i) == []
  {
    hide Field;
  }

  lemma Issues(h: Host, s: State, i: Input)
    requires !Silent(h, s, i)
    ensures Ok(h, s, i) == i.sent && Sent(h, s, i) == Completed(h, s, i) + [Awaited(h, Next(h, s, i))]
  {
    hide Refused, Completed, Next, Awaited;
  }

  /** The version question runs straight into the SD power-up. */
  lemma CardVersionCall(h: Host, s: State, i: Input)
    requires s.phase == CardVersion
    ensures Completed(h, s, i) == [] && Refused(h, s, i) == !Answered(i)
    ensures
      if !Answered(i) then Next(h, s, i) == s
      else
        var t := s.(phase := SdPowerup, istage := 0, version := if i.timeout then Sd1 else Sd2);
        Next(h, s, i) == Next(h, t, i) && Ok(h, s, i) == Ok(h, t, i) && Sent(h, s, i) == Sent(h, t, i)
  {
    hide Next, Completed, Ok, Sent, Silent, Refused, Awaited, Answered;
    CardVersionNext(h, s, i);
    if Answered(i) {
      var t := s.(phase := SdPowerup, istage := 0, version := if i.timeout then Sd1 else Sd2);
      SdPowerupCall(h, t, i);
      Issues(h, s, i);
      Issues(h, t, i);
    }
  }

  lemma Stages(istage: nat)
    ensures istage % 3 == 0 ==> (istage + 1) % 3 == 1 && (istage + 2) % 3 == 2
    ensures istage % 3 == 1 ==> (istage + 1) % 3 == 2
    ensures istage % 3 == 2 ==> (istage + 1) % 3 == 0
  {
  }

  /** The flat table of an SD power-up call. */
  lemma SdPowerupCall(h: Host, s: State, i: Input)
    requires s.phase == SdPowerup
    ensures Completed(h, s, i) == []
    ensures
      var n, at := Next(h, s, i), s.istage + if s.istage % 3 == 0 then 1 else 0;
      var c := s.(highCapacity := s.highCapacity || HighCapacityCard(i));
      && Silent(h, s, i) == Refused(h, s, i) == (s.istage > 1000 || (s.istage > 0 && i.error && !MaybeMmc(s, i)))
      && (s.istage > 1000 ==> n == s)
      && (s.istage == 0 ==> n == s.(istage := 1))
      && (MaybeMmc(s, i) ==> n == s.(phase := MmcPowerup, istage := 0, pushPull := false))
      && (0 < s.istage <= 1000 && i.error && !MaybeMmc(s, i) ==> n == s.(istage := at))
      && (0 < s.istage <= 1000 && !i.error && !MaybeMmc(s, i) && at % 3 == 1 ==> n == s.(istage := at + 1))
      && (s.istage <= 1000 && !i.error && s.istage % 3 == 2 ==>
            n == if PoweredUp(i) then c.(phase := AllSendCid, istage := 0) else c.(istage := at + 1))
  {
    hide HighCapacityCard, PoweredUp;
  }

  lemma MmcPowerupCall(h: Host, s: State, i: Input)
    requires s.phase == MmcPowerup
    ensures Completed(h, s, i) == []
    ensures
      var n := Next(h, s, i);
      var c := s.(highCapacity := s.highCapacity || HighCapacityCard(i));
      && Silent(h, s, i) == Refused(h, s, i) == (TimedOut(h, s) || (s.istage >= 2 && i.error))
      && (TimedOut(h, s) ==> n == s)
      && (!TimedOut(h, s) && (s.istage < 2 || i.error) ==> n == s.(istage := s.istage + 1))
      && (!TimedOut(h, s) && s.istage >= 2 && !i.error ==>
            n == if PoweredUp(i) then c.(phase := AllSendCid, istage := 0, version := Mmc)
                 else c.(istage := s.istage + 1))
  {
    hide HighCapacityCard, PoweredUp, TimedOut;
  }

  lemma TimedOutExactly(h: Host, s: State)
    ensures TimedOut(h, s) <==> h.powerDelay * s.istage > 3000 || s.istage > 3000
  {
  }

  lemma AddressCall(h: Host, s: State, i: Input)
    requires s.phase == AllSendCid || s.phase == SetAddress
    ensures Completed(h, s, i) == []
    ensures Next(h, s, i) ==
      if i.error then s
      else if s.phase == AllSendCid then s.(phase := SetAddress, rca := if s.version == Mmc then 2 else 0)
      else s.(phase := SendCid, pushPull := true, rca := if s.version == Mmc then s.rca else i.resp.w0 / 0x1_0000)
  {
  }

  lemma SendCsdCall(h: Host, s: State, i: Input)
    requires s.phase == SendCsd
    ensures Completed(h, s, i) == []
    ensures
      var m, d := MmcLayout(Register(i.resp)), SdLayout(Register(i.resp));
      Next(h, s, i) ==
        if i.error then s
        else if s.version == Mmc then
          s.(phase := SelDesCard, prot := m.prot,
             writeProtected := s.writeProtected || m.permWriteProtect != 0 || m.tmpWriteProtect != 0)
        else
          s.(phase := SelDesCard, ccc := d.ccc,
             writeProtected := s.writeProtected || d.permWriteProtect != 0 || d.tmpWriteProtect != 0)
  {
    hide MmcLayout, SdLayout, Register;
  }

  lemma SwitchModeCall(h: Host, s: State, i: Input)
    requires s.phase == SwitchMode
    ensures Completed(h, s, i) == []
    ensures Next(h, s, i) ==
      if i.error || !i.pioRead then s
      else s.(phase := Final, highSpeed := s.highSpeed || CardSwitched(i))
  {
  }

  lemma ExtCsdCall(h: Host, s: State, i: Input)
    requires s.phase == ExtCsd
    ensures
      var stays := i.error || !i.pioRead || !CardIs26Or52(i);
      && Next(h, s, i) == (if stays then s else s.(phase := NextPhase(h, s, i)))
      && Completed(h, s, i) ==
           (if !stays && Partitioned(i) then [Command(SWITCH, ERASE_GROUP_DEF, s.pushPull)] else [])
             + if Waits(h, s, i) then Polls(h, s, i) else []
  {
    hide Polls, Partitioned;
  }

  lemma SwitchHsCall(h: Host, s: State, i: Input)
    requires s.phase == SwitchHs
    ensures Next(h, s, i) == if i.error then s else s.(phase := NextPhase(h, s, i), highSpeed := true)
    ensures Completed(h, s, i) == if Waits(h, s, i) then Polls(h, s, i) else []
  {
    hide Polls, Partitioned;
  }

  lemma SwitchBwCall(h: Host, s: State, i: Input)
    requires s.phase == SwitchBw
    ensures Next(h, s, i) == if i.error then s else s.(phase := Final)
    ensures Completed(h, s, i) == if i.error then [] else Polls(h, s, i)
  {
    hide Polls, Partitioned;
  }

  lemma CycledKeeps(h: Host, s: State, i: Input)
    ensures var c := Cycled(h, s, i); c.count == s.count && c.phase == s.phase
  {
  }

  /** A refused call issues nothing more. */
  lemma Refusal(h: Host, s: State, i: Input)
    ensures Refused(h, s, i) ==> !Ok(h, s, i) && Sent(h, s, i) == Completed(h, s, i)
  {
    hide Refused, Completed;
  }

  lemma SamePolls(h: Host, s: State, t: State, i: Input)
    requires s.rca == t.rca && s.pushPull == t.pushPull
    ensures Polls(h, s, i) == Polls(h, t, i)
  {
  }

  lemma LastCalls(h: Host, s: State, i: Input)
    requires s.phase == Final || s.phase == Done
    ensures Next(h, s, i) == s.(phase := Done) && Sent(h, s, i) == []
    ensures Ok(h, s, i) == (s.phase == Final && !i.error)
  {
  }
}
