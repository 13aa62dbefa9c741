/** Identification of an MMC or SD card: what one call of the handler does, as a function of the state
    and of what the controller and the card answer. */
module IdentModel {
  import opened Csd
  import opened Powers
  import opened Words

  /** The phase names the command whose completion is awaited, as in the driver. */
  datatype Phase =
    | Done | Start | GoIdle | CardVersion | SdPowerup | MmcPowerup
    | AllSendCid | SetAddress | SendCid | SendCsd | SendScr | ParseScr | CheckMode | SwitchMode
    | SelDesCard | CheckSts | SetBwApp | SetBw | ExtCsd | SwitchHs | SwitchBw | Final

  datatype Version = Sd1 | Sd2 | Mmc

  const GO_IDLE_STATE: uint8 := 0
  const SEND_OP_COND: uint8 := 1
  const ALL_SEND_CID: uint8 := 2
  const SET_RELATIVE_ADDR: uint8 := 3
  const SWITCH: uint8 := 6
  const SEL_DES_CARD: uint8 := 7
  const IF_COND: uint8 := 8
  const SEND_EXT_CSD: uint8 := 8
  const SEND_CSD: uint8 := 9
  const SEND_CID: uint8 := 10
  const SEND_STATUS: uint8 := 13
  const SET_BLOCKLEN: uint8 := 16
  const SD_SEND_OP_COND: uint8 := 41
  const SD_SEND_SCR: uint8 := 51
  const APP_CMD: uint8 := 55

  const VOLTAGE_PATTERN: uint32 := 0x1AA
  const BUS_4BIT: uint32 := 2
  const CHECK_HIGH_SPEED: uint32 := 0x00FF_FF01
  const SWITCH_HIGH_SPEED: uint32 := 0x80FF_FF01

  /** Arguments of the MMC switch command: write byte 175, 185 or 183 of the extended register. */
  const ERASE_GROUP_DEF: uint32 := 0x03AF_0101
  const HS_TIMING: uint32 := 0x03B9_0101

  function BusWidthArg(value: nat): uint32
    requires value <= 2
  {
    0x03B7_0001 + 0x100 * value
  }

  datatype Command = Command(opcode: uint8, argument: uint32, pushPull: bool)

  /** The controller's capabilities and the driver's options. A forced bus width replaces the width
      the capabilities give, and a controller with a lock switch reads it on every power-up. */
  datatype Host = Host(
    highSpeed: bool, v18: bool, v30: bool, v33: bool, bus4: bool, bus8: bool, busyBug: bool, pio: bool,
    lockSwitch: bool, powerDelay: nat, powerRetry: nat, noHighSpeed: bool, forcedBus: Option<nat>)

  /** The interrupt a call handles, the card's response to the last command, and the results of the
      controller's entry points during the call. */
  datatype Input = Input(
    command: bool, error: bool, timeout: bool, resp: Response,
    sent: bool, present: bool, powered: bool, locked: bool, sized: bool, pioReady: bool, pioRead: bool,
    data: seq<uint8>, polls: nat, ready: bool)

  /** Of the decoded registers only the MMC protocol version and the SD command classes steer the run. */
  datatype State = State(
    phase: Phase, istage: nat, count: nat, version: Version, rca: uint32,
    highSpeed: bool, highCapacity: bool, writeProtected: bool, pushPull: bool, prot: nat, ccc: nat)

  /** What a call did: the state it leaves, whether it reported success, and the commands it issued. */
  datatype Outcome = Outcome(state: State, ok: bool, sent: seq<Command>)

  /** A byte of the block the controller's data port delivered; it delivers whole blocks. */
  function Byte(i: Input, n: nat): uint8 {
    if n < |i.data| then i.data[n] else 0
  }

  predicate Bit(word: nat, n: nat) {
    Field(word, n, 1) == 1
  }

  // ----- what the cards answer -----

  /** The answer that tells the card's version: none at all, or the pattern sent. */
  predicate Answered(i: Input) {
    i.timeout || (!i.error && Field(i.resp.w0, 0, 13) == VOLTAGE_PATTERN)
  }

  predicate PoweredUp(i: Input) {
    Bit(i.resp.w0, 31)
  }

  predicate HighCapacityCard(i: Input) {
    Bit(i.resp.w0, 30)
  }

  predicate CsdLocked(s: State, i: Input) {
    if s.version == Mmc then
      var csd := MmcLayout(Register(i.resp)); csd.permWriteProtect != 0 || csd.tmpWriteProtect != 0
    else
      var csd := SdLayout(Register(i.resp)); csd.permWriteProtect != 0 || csd.tmpWriteProtect != 0
  }

  predicate CardOffersHighSpeed(i: Input) {
    Bit(Byte(i, 13), 1)
  }

  predicate CardHasSwitch(s: State) {
    Bit(s.ccc, 10)
  }

  predicate CardSwitched(i: Input) {
    Byte(i, 16) % 16 == 1
  }

  /** Any of the five speed types. */
  predicate CardIs26Or52(i: Input) {
    Byte(i, 196) % 32 != 0
  }

  /** The card supports partitions and they are complete. */
  predicate Partitioned(i: Input) {
    Bit(Byte(i, 160), 0) && Bit(Byte(i, 155), 0)
  }

  // ----- what the host allows -----

  /** The bus an SD card is given. */
  predicate Wide(h: Host) {
    match h.forcedBus
    case Some(width) => width == 4
    case None => h.bus4
  }

  const MMC_PROT_4 := 4

  predicate WideMmc(h: Host, s: State) {
    s.prot >= MMC_PROT_4 && (h.bus8 || h.bus4)
  }

  function BusWidthValue(h: Host): (v: nat)
    ensures v <= 2
  {
    match h.forcedBus
    case Some(width) => if width == 8 then 2 else if width == 4 then 1 else 0
    case None => if h.bus8 then 2 else if h.bus4 then 1 else 0
  }

  /** The voltage window offered to an SD card. */
  function SdOcr(h: Host): uint32 {
    if h.v18 && h.v30 && h.v33 then 0xFF_8000
    else if h.v18 then 0x100_0000
    else if h.v30 then 0x4_0000
    else 0x20_0000
  }

  const HIGH_CAPACITY: uint32 := 0x4000_0000

  function MmcOcr(h: Host): uint32 {
    HIGH_CAPACITY + (if h.v18 then 0x80 else 0) + (if h.v30 || h.v33 then 0xFF_8000 else 0)
  }

  /** Three seconds of waiting for an MMC card, or 3001 polls. */
  predicate TimedOut(h: Host, s: State) {
    h.powerDelay * s.istage > 3000 || s.istage > 3000
  }

  predicate Waited(h: Host, i: Input) {
    !h.busyBug || i.ready
  }

  // ----- one call, field by field -----

  /** The one call that succeeds without moving: waiting for the reset, on an interrupt that reports
      neither a completed command nor an error. */
  predicate Stutters(s: State, i: Input) {
    s.phase == GoIdle && !i.error && !i.command
  }

  /** An SD version 1 card that does not answer the first application command may be an MMC card. */
  predicate MaybeMmc(s: State, i: Input) {
    s.phase == SdPowerup && s.istage == 1 && s.version == Sd1 && i.timeout
  }

  predicate SkipsHighSpeed(h: Host, s: State, i: Input) {
    match s.phase
    case SetBw => h.noHighSpeed || !h.pio || !i.sized
    case ParseScr => Byte(i, 0) % 16 < 1 || !i.sized || !i.pioReady
    case CheckMode => i.error || !CardOffersHighSpeed(i) || !CardHasSwitch(s) || !h.highSpeed
    case _ => false
  }

  /** The wait for the card before and after its bus width is switched. */
  predicate Waits(h: Host, s: State, i: Input) {
    && !i.error
    && match s.phase
       case ExtCsd => i.pioRead && CardIs26Or52(i) && !h.highSpeed && WideMmc(h, s)
       case SwitchHs => WideMmc(h, s)
       case SwitchBw => true
       case _ => false
  }

  /** The call fails without issuing the next command. */
  predicate Refused(h: Host, s: State, i: Input) {
    match s.phase
    case Done => true
    case Start => !i.present || !i.powered
    case CardVersion => !Answered(i)
    case SdPowerup => s.istage > 1000 || (s.istage > 0 && i.error && !MaybeMmc(s, i))
    case MmcPowerup => TimedOut(h, s) || (s.istage >= 2 && i.error)
    case CheckSts => i.error || (s.version == Mmc && s.prot >= MMC_PROT_4 && !i.pioReady)
    case SendScr => i.error || !i.pioReady
    case ParseScr => i.error || !i.pioRead
    case CheckMode => !i.error && (!i.pioRead || (!SkipsHighSpeed(h, s, i) && !i.pioReady))
    case SwitchMode => i.error || !i.pioRead
    case ExtCsd => i.error || !i.pioRead || !CardIs26Or52(i) || (Waits(h, s, i) && !Waited(h, i))
    case SwitchHs => i.error || (Waits(h, s, i) && !Waited(h, i))
    case SwitchBw => i.error || !Waited(h, i)
    case _ => i.error
  }

  function NextPhase(h: Host, s: State, i: Input): Phase {
    if Refused(h, s, i) && s.phase != Final && !Waits(h, s, i) then s.phase
    else
      match s.phase
      case Done => Done
      case Start => if s.count + 1 > h.powerRetry then GoIdle else Start
      case GoIdle => if i.command then CardVersion else GoIdle
      case CardVersion => SdPowerup
      case SdPowerup =>
        if MaybeMmc(s, i) then MmcPowerup
        else if s.istage % 3 == 2 && PoweredUp(i) then AllSendCid
        else SdPowerup
      case MmcPowerup => if s.istage >= 2 && PoweredUp(i) then AllSendCid else MmcPowerup
      case AllSendCid => SetAddress
      case SetAddress => SendCid
      case SendCid => SendCsd
      case SendCsd => SelDesCard
      case SelDesCard => CheckSts
      case CheckSts =>
        if s.version == Mmc then if s.prot < MMC_PROT_4 then Final else ExtCsd
        else if Wide(h) then SetBwApp else SendScr
      case SetBwApp => SetBw
      case SetBw => if SkipsHighSpeed(h, s, i) then Final else SendScr
      case SendScr => ParseScr
      case ParseScr => if SkipsHighSpeed(h, s, i) then Final else CheckMode
      case CheckMode => if SkipsHighSpeed(h, s, i) then Final else SwitchMode
      case SwitchMode => Final
      case ExtCsd => if h.highSpeed then SwitchHs else if WideMmc(h, s) then SwitchBw else Final
      case SwitchHs => if WideMmc(h, s) then SwitchBw else Final
      case SwitchBw => Final
      case Final => Done
  }

  /** An SD card's loop is two commands. The stage is 1 or a multiple of 3 while the application
      command is awaited, and 2 modulo 3 while the operating condition is. */
  function NextStage(h: Host, s: State, i: Input): nat {
    match s.phase
    case GoIdle => if NextPhase(h, s, i) == CardVersion then 0 else s.istage
    case CardVersion => if Answered(i) then 1 else s.istage
    case SdPowerup =>
      if s.istage > 1000 then s.istage
      else if NextPhase(h, s, i) != SdPowerup then 0
      else if s.istage == 0 then 1
      else s.istage + (if s.istage % 3 == 0 then 1 else 0) + (if i.error then 0 else 1)
    case MmcPowerup =>
      if TimedOut(h, s) then s.istage
      else if NextPhase(h, s, i) != MmcPowerup then 0
      else s.istage + 1
    case _ => s.istage
  }

  /** The power cycles are counted across failed attempts. */
  function NextCount(h: Host, s: State, i: Input): nat {
    if s.phase != Start || Refused(h, s, i) then s.count
    else if s.count + 1 > h.powerRetry then 0
    else s.count + 1
  }

  function NextVersion(h: Host, s: State, i: Input): Version {
    match s.phase
    case CardVersion => if i.timeout then Sd1 else if Answered(i) then Sd2 else s.version
    case MmcPowerup => if NextPhase(h, s, i) == AllSendCid then Mmc else s.version
    case _ => s.version
  }

  function NextRca(s: State, i: Input): uint32 {
    if i.error then s.rca
    else
      match s.phase
      case AllSendCid => if s.version == Mmc then 2 else 0
      case SetAddress => if s.version == Mmc then s.rca else i.resp.w0 / 0x1_0000
      case _ => s.rca
  }

  /** Only the first power cycle of a count clears the flags. */
  predicate Clears(s: State) {
    s.phase == Start && s.count == 0
  }

  predicate NextHighSpeed(s: State, i: Input) {
    match s.phase
    case SwitchMode => s.highSpeed || (!i.error && i.pioRead && CardSwitched(i))
    case SwitchHs => s.highSpeed || !i.error
    case _ => s.highSpeed && !Clears(s)
  }

  predicate NextHighCapacity(h: Host, s: State, i: Input) {
    match s.phase
    case SdPowerup =>
      s.highCapacity || (!Refused(h, s, i) && s.istage % 3 == 2 && HighCapacityCard(i))
    case MmcPowerup => s.highCapacity || (!Refused(h, s, i) && s.istage >= 2 && HighCapacityCard(i))
    case _ => s.highCapacity && !Clears(s)
  }

  predicate NextWriteProtected(h: Host, s: State, i: Input) {
    match s.phase
    case Start => if i.present && h.lockSwitch then i.locked else s.writeProtected && !Clears(s)
    case SendCsd => s.writeProtected || (!i.error && CsdLocked(s, i))
    case _ => s.writeProtected
  }

  predicate NextPushPull(s: State, i: Input) {
    match s.phase
    case Start => s.pushPull || Clears(s)
    case SdPowerup => s.pushPull && !MaybeMmc(s, i)
    case SetAddress => s.pushPull || !i.error
    case _ => s.pushPull
  }

  function NextProt(s: State, i: Input): nat {
    if Clears(s) then 0
    else if s.phase == SendCsd && !i.error && s.version == Mmc then MmcLayout(Register(i.resp)).prot
    else s.prot
  }

  function NextCcc(s: State, i: Input): nat {
    if Clears(s) then 0
    else if s.phase == SendCsd && !i.error && s.version != Mmc then SdLayout(Register(i.resp)).ccc
    else s.ccc
  }

  function Next(h: Host, s: State, i: Input): State {
    State(
      NextPhase(h, s, i), NextStage(h, s, i), NextCount(h, s, i), NextVersion(h, s, i), NextRca(s, i),
      NextHighSpeed(s, i), NextHighCapacity(h, s, i), NextWriteProtected(h, s, i), NextPushPull(s, i),
      NextProt(s, i), NextCcc(s, i))
  }

  // ----- the commands -----

  /** `rca << 16`. */
  function RcaArg(s: State): uint32 {
    s.rca * 0x1_0000 % LIMIT32
  }

  function Opcode(s: State): uint8 {
    match s.phase
    case Start => GO_IDLE_STATE
    case GoIdle => GO_IDLE_STATE
    case CardVersion => IF_COND
    case SdPowerup => if s.istage == 1 || s.istage % 3 == 0 then APP_CMD else SD_SEND_OP_COND
    case MmcPowerup => if s.istage == 0 then GO_IDLE_STATE else SEND_OP_COND
    case AllSendCid => ALL_SEND_CID
    case SetAddress => SET_RELATIVE_ADDR
    case SendCid => SEND_CID
    case SendCsd => SEND_CSD
    case SelDesCard => SEL_DES_CARD
    case CheckSts => SEND_STATUS
    case SetBwApp => APP_CMD
    case SendScr => APP_CMD
    case ParseScr => SD_SEND_SCR
    case ExtCsd => SEND_EXT_CSD
    case Final => SET_BLOCKLEN
    case Done => SET_BLOCKLEN
    case _ => SWITCH
  }

  function Argument(h: Host, s: State): uint32 {
    match s.phase
    case CardVersion => VOLTAGE_PATTERN
    case SdPowerup =>
      if Opcode(s) == APP_CMD then 0
      else (if s.istage == 2 then 0 else SdOcr(h)) + if s.version == Sd2 then HIGH_CAPACITY else 0
    case MmcPowerup => if s.istage > 1 then MmcOcr(h) else 0
    case SetAddress => RcaArg(s)
    case SendCid => RcaArg(s)
    case SendCsd => RcaArg(s)
    case SelDesCard => RcaArg(s)
    case CheckSts => RcaArg(s)
    case SetBwApp => RcaArg(s)
    case SendScr => RcaArg(s)
    case SetBw => BUS_4BIT
    case CheckMode => CHECK_HIGH_SPEED
    case SwitchMode => SWITCH_HIGH_SPEED
    case SwitchHs => HS_TIMING
    case SwitchBw => BusWidthArg(BusWidthValue(h))
    case Final => DFLT_BLKSIZE
    case _ => 0
  }

  /** The command whose completion a state awaits. */
  function Awaited(h: Host, s: State): Command {
    Command(Opcode(s), Argument(h, s), s.pushPull)
  }

  /** The status commands of a wait, needed when the controller cannot see the card's busy signal. */
  function Polls(h: Host, s: State, i: Input): seq<Command> {
    if h.busyBug then seq(1 + i.polls, _ => Command(SEND_STATUS, RcaArg(s), s.pushPull)) else []
  }

  /** The commands a call completes before it issues the one it awaits. */
  function Completed(h: Host, s: State, i: Input): seq<Command> {
    var partitions :=
      s.phase == ExtCsd && (NextPhase(h, s, i) != ExtCsd) && Partitioned(i);
    (if partitions then [Command(SWITCH, ERASE_GROUP_DEF, s.pushPull)] else [])
      + if Waits(h, s, i) then Polls(h, s, i) else []
  }

  predicate Silent(h: Host, s: State, i: Input) {
    Refused(h, s, i) || Stutters(s, i) || s.phase == Final
  }

  function Sent(h: Host, s: State, i: Input): seq<Command> {
    Completed(h, s, i) + if Silent(h, s, i) then [] else [Awaited(h, Next(h, s, i))]
  }

  predicate Ok(h: Host, s: State, i: Input) {
    !Refused(h, s, i) && (i.sent || Silent(h, s, i))
  }

  /** One call of the handler. */
  function Step(h: Host, s: State, i: Input): Outcome {
    Outcome(Next(h, s, i), Ok(h, s, i), Sent(h, s, i))
  }
}
