/** The commands of an identification attempt, against the identification protocol's grammar. */
module IdentTrace {
  import opened IdentModel
  import opened IdentRuns
  import opened Words

  // ----- the grammar -----

  /** How far a card is identified, by the last command it was given. The stages after CMD2 know
      whether the card answered as an SD card. */
  datatype Stage =
    | Off | Reset | Asked | FirstApp | Condition | App | MmcReset | FirstPoll | Poll
    | Cid(sd: bool) | Address(sd: bool) | Identity(sd: bool) | Register(sd: bool)
    | Selected(sd: bool) | Status(sd: bool)
    | TailApp | Width | ScrApp | Scr | CheckedMode | SwitchedMode
    | Extended | Partitions | Timing | BusyBefore | Bus | BusyAfter | Complete

  predicate IsBusWidth(c: Command) {
    c.opcode == SWITCH && c.argument in {BusWidthArg(0), BusWidthArg(1), BusWidthArg(2)}
  }

  /** The grammar: reset, then the SD version 2 question, then the SD application loop or, from its
      first application command, the MMC one; the registers; and the SD or the MMC tail. Sections
      4.2.3 and 4.3.9 of the SD Physical Layer Simplified Specification ask for the CMD55 prefixes. */
  function Reads(q: Stage, c: Command): Option<Stage> {
    var op := c.opcode;
    match q
    case Off => if op == GO_IDLE_STATE then Some(Reset) else None
    case Reset =>
      if op == GO_IDLE_STATE then Some(Reset)
      else if op == IF_COND && c.argument == VOLTAGE_PATTERN then Some(Asked) else None
    case Asked => if op == APP_CMD then Some(FirstApp) else None
    case FirstApp =>
      if op == SD_SEND_OP_COND then Some(Condition)
      else if op == GO_IDLE_STATE then Some(MmcReset) else None
    case Condition =>
      if op == APP_CMD then Some(App) else if op == ALL_SEND_CID then Some(Cid(true)) else None
    case App => if op == SD_SEND_OP_COND then Some(Condition) else None
    case MmcReset => if op == SEND_OP_COND then Some(FirstPoll) else None
    case FirstPoll => if op == SEND_OP_COND then Some(Poll) else None
    case Poll =>
      if op == SEND_OP_COND then Some(Poll) else if op == ALL_SEND_CID then Some(Cid(false)) else None
    case Cid(sd) => if op == SET_RELATIVE_ADDR then Some(Address(sd)) else None
    case Address(sd) => if op == SEND_CID then Some(Identity(sd)) else None
    case Identity(sd) => if op == SEND_CSD then Some(Register(sd)) else None
    case Register(sd) => if op == SEL_DES_CARD then Some(Selected(sd)) else None
    case Selected(sd) => if op == SEND_STATUS then Some(Status(sd)) else None
    case Status(sd) =>
      if sd then if op == APP_CMD then Some(TailApp) else None
      else if op == SEND_EXT_CSD then Some(Extended) else Finish(c)
    case TailApp =>
      if op == SWITCH && c.argument == BUS_4BIT then Some(Width)
      else if op == SD_SEND_SCR then Some(Scr) else None
    case Width => if op == APP_CMD then Some(ScrApp) else Finish(c)
    case ScrApp => if op == SD_SEND_SCR then Some(Scr) else None
    case Scr => if op == SWITCH && c.argument == CHECK_HIGH_SPEED then Some(CheckedMode) else Finish(c)
    case CheckedMode => if op == SWITCH && c.argument == SWITCH_HIGH_SPEED then Some(SwitchedMode) else Finish(c)
    case SwitchedMode => Finish(c)
    case Extended => if op == SWITCH && c.argument == ERASE_GROUP_DEF then Some(Partitions) else SetsSpeed(c)
    case Partitions => SetsSpeed(c)
    case Timing => SetsBus(c)
    case BusyBefore => if op == SEND_STATUS || IsBusWidth(c) then SetsBus(c) else None
    case Bus => AfterBus(c)
    case BusyAfter => AfterBus(c)
    case Complete => None
  }

  /** Every path ends by setting the block length. */
  function Finish(c: Command): Option<Stage> {
    if c.opcode == SET_BLOCKLEN then Some(Complete) else None
  }

  function SetsSpeed(c: Command): Option<Stage> {
    if c.opcode == SWITCH && c.argument == HS_TIMING then Some(Timing) else SetsBus(c)
  }

  function SetsBus(c: Command): Option<Stage> {
    if c.opcode == SEND_STATUS then Some(BusyBefore) else if IsBusWidth(c) then Some(Bus) else Finish(c)
  }

  function AfterBus(c: Command): Option<Stage> {
    if c.opcode == SEND_STATUS then Some(BusyAfter) else Finish(c)
  }

  function ReadAll(q: Stage, w: seq<Command>): Option<Stage>
    decreases |w|
  {
    if w == [] then Some(q)
    else
      match ReadAll(q, w[..|w| - 1])
      case None => None
      case Some(r) => Reads(r, w[|w| - 1])
  }

  predicate Word(w: seq<Command>) {
    ReadAll(Off, w) == Some(Complete)
  }

  lemma {:induction false} ReadAppend(q: Stage, v: seq<Command>, w: seq<Command>)
    ensures ReadAll(q, v + w) == match ReadAll(q, v) case None => None case Some(r) => ReadAll(r, w)
    decreases |w|
  {
    hide Reads;
    if w == [] {
      assert v + w == v;
    } else {
      var last := |w| - 1;
      ReadAppend(q, v, w[..last]);
      assert (v + w)[..|v + w| - 1] == v + w[..last];
    }
  }

  lemma ReadOne(q: Stage, c: Command)
    ensures ReadAll(q, [c]) == Reads(q, c)
  {
    hide Reads;
    assert [c][..0] == [];
  }

  // ----- every stage can be completed -----

  /** The next command of a shortest completion, and how many there are. */
  function Onward(q: Stage): Command {
    match q
    case Off => Command(GO_IDLE_STATE, 0, true)
    case Reset => Command(IF_COND, VOLTAGE_PATTERN, true)
    case Asked => Command(APP_CMD, 0, true)
    case FirstApp => Command(SD_SEND_OP_COND, 0, true)
    case Condition => Command(ALL_SEND_CID, 0, true)
    case App => Command(SD_SEND_OP_COND, 0, true)
    case MmcReset => Command(SEND_OP_COND, 0, false)
    case FirstPoll => Command(SEND_OP_COND, 0, false)
    case Poll => Command(ALL_SEND_CID, 0, false)
    case Cid(sd) => Command(SET_RELATIVE_ADDR, 0, sd)
    case Address(_) => Command(SEND_CID, 0, true)
    case Identity(_) => Command(SEND_CSD, 0, true)
    case Register(_) => Command(SEL_DES_CARD, 0, true)
    case Selected(_) => Command(SEND_STATUS, 0, true)
    case Status(sd) => if sd then Command(APP_CMD, 0, true) else Command(SET_BLOCKLEN, 0, true)
    case TailApp => Command(SD_SEND_SCR, 0, true)
    case ScrApp => Command(SD_SEND_SCR, 0, true)
    case BusyBefore => Command(SWITCH, BusWidthArg(0), true)
    case _ => Command(SET_BLOCKLEN, 0, true)
  }

  function Distance(q: Stage): nat {
    match q
    case Off => 13
    case Reset => 12
    case Asked => 11
    case FirstApp => 10
    case Condition => 9
    case App => 10
    case MmcReset => 9
    case FirstPoll => 8
    case Poll => 7
    case Cid(sd) => if sd then 8 else 6
    case Address(sd) => if sd then 7 else 5
    case Identity(sd) => if sd then 6 else 4
    case Register(sd) => if sd then 5 else 3
    case Selected(sd) => if sd then 4 else 2
    case Status(sd) => if sd then 3 else 1
    case TailApp => 2
    case ScrApp => 2
    case BusyBefore => 2
    case Complete => 0
    case _ => 1
  }

  lemma OnwardCloser(q: Stage)
    requires q != Complete
    ensures Reads(q, Onward(q)).Some? && Distance(Reads(q, Onward(q)).value) < Distance(q)
  {
  }

  /** What has been read so far is always a prefix of a word. */
  lemma {:induction false} PrefixOfWord(v: seq<Command>, q: Stage)
    requires ReadAll(Off, v) == Some(q)
    ensures exists w :: Word(v + w)
    decreases Distance(q)
  {
    hide Reads, Onward, Distance;
    if q == Complete {
      assert v + [] == v;
      assert Word(v + []);
    } else {
      OnwardCloser(q);
      var c := Onward(q);
      assert (v + [c])[..|v|] == v;
      PrefixOfWord(v + [c], Reads(q, c).value);
      var w :| Word(v + [c] + w);
      assert v + [c] + w == v + ([c] + w);
    }
  }

  // ----- the handler speaks the grammar -----

  /** The stage that a state awaits the answer of. */
  predicate Follows(s: State, q: Stage) {
    match s.phase
    case Start => q == Off || q == Reset
    case GoIdle => q == Reset
    case CardVersion => q == Asked
    case SdPowerup =>
      if s.istage == 1 then q == FirstApp
      else if s.istage % 3 == 2 then q == Condition
      else s.istage % 3 == 0 && s.istage > 0 && q == App
    case MmcPowerup => q == if s.istage == 0 then MmcReset else if s.istage == 1 then FirstPoll else Poll
    case AllSendCid => q == Cid(s.version != Mmc)
    case SetAddress => q == Address(s.version != Mmc)
    case SendCid => q == Identity(s.version != Mmc)
    case SendCsd => q == Register(s.version != Mmc)
    case SelDesCard => q == Selected(s.version != Mmc)
    case CheckSts => q == Status(s.version != Mmc)
    case SetBwApp => q == TailApp
    case SetBw => q == Width
    case SendScr => q == TailApp || q == ScrApp
    case ParseScr => q == Scr
    case CheckMode => q == CheckedMode
    case SwitchMode => q == SwitchedMode
    case ExtCsd => q == Extended
    case SwitchHs => q == Timing
    case SwitchBw => q == Bus
    case Final => q == Complete
    case Done => q == Complete
  }

  lemma StartReads(h: Host, s: State, i: Input, q: Stage)
    requires Follows(s, q) && Sorted(s) && !Silent(h, s, i)
    requires s.phase == Start || s.phase == GoIdle || s.phase == CardVersion
    ensures var r := Reads(q, Awaited(h, Next(h, s, i)));
      r.Some? && Follows(Next(h, s, i), r.value)
  {
    hide Bit, Answered, TimedOut, SkipsHighSpeed, Wide, RcaArg, SdOcr, MmcOcr, NextCount, NextRca,
      NextHighSpeed, NextHighCapacity, NextWriteProtected, NextPushPull, NextProt, NextCcc, Waits;
  }

  function NextLoop(istage: nat): nat {
    if istage == 0 then 1 else if istage % 3 == 0 then istage + 2 else istage + 1
  }

  lemma PowerupMoves(h: Host, s: State, i: Input)
    requires (s.phase == SdPowerup ==> s.version != Mmc) && !Refused(h, s, i)
    ensures var n := Next(h, s, i);
      match s.phase
      case SdPowerup =>
        if s.istage == 1 && n.phase == MmcPowerup then n.istage == 0
        else if s.istage % 3 == 2 && n.phase == AllSendCid then n.version != Mmc
        else n.phase == SdPowerup && n.istage == NextLoop(s.istage)
      case MmcPowerup =>
        if s.istage >= 2 && n.phase == AllSendCid then n.version == Mmc
        else n.phase == MmcPowerup && n.istage == s.istage + 1
      case _ => true
  {
    hide Bit, TimedOut, Waits, SkipsHighSpeed, Wide, NextCount, NextRca, NextHighSpeed, NextHighCapacity,
      NextWriteProtected, NextPushPull, NextProt, NextCcc;
  }

  lemma PowerupReads(h: Host, s: State, i: Input, q: Stage)
    requires Follows(s, q) && Sorted(s) && !Refused(h, s, i)
    requires s.phase == SdPowerup || s.phase == MmcPowerup
    ensures var r := Reads(q, Awaited(h, Next(h, s, i)));
      r.Some? && Follows(Next(h, s, i), r.value)
  {
    hide Next, Argument, Refused;
    PowerupMoves(h, s, i);
  }

  lemma AddressCommands(h: Host, s: State)
    ensures var op := Opcode(s);
      match s.phase
      case SetAddress => op == SET_RELATIVE_ADDR
      case SendCid => op == SEND_CID
      case SendCsd => op == SEND_CSD
      case SelDesCard => op == SEL_DES_CARD
      case CheckSts => op == SEND_STATUS
      case SetBwApp => op == APP_CMD
      case SendScr => op == APP_CMD
      case ExtCsd => op == SEND_EXT_CSD
      case Final => op == SET_BLOCKLEN
      case _ => true
  {
  }

  lemma AddressChain(q: Stage, c: Command)
    ensures
      match q
      case Cid(sd) => c.opcode == SET_RELATIVE_ADDR ==> Reads(q, c) == Some(Address(sd))
      case Address(sd) => c.opcode == SEND_CID ==> Reads(q, c) == Some(Identity(sd))
      case Identity(sd) => c.opcode == SEND_CSD ==> Reads(q, c) == Some(Register(sd))
      case Register(sd) => c.opcode == SEL_DES_CARD ==> Reads(q, c) == Some(Selected(sd))
      case Selected(sd) => c.opcode == SEND_STATUS ==> Reads(q, c) == Some(Status(sd))
      case Status(sd) =>
        && (sd && c.opcode == APP_CMD ==> Reads(q, c) == Some(TailApp))
        && (!sd && c.opcode == SEND_EXT_CSD ==> Reads(q, c) == Some(Extended))
        && (!sd && c.opcode == SET_BLOCKLEN ==> Reads(q, c) == Some(Complete))
      case _ => true
  {
  }

  lemma AddressMoves(h: Host, s: State, i: Input)
    requires !Refused(h, s, i)
    ensures var n := Next(h, s, i);
      match s.phase
      case AllSendCid => n.phase == SetAddress && n.version == s.version
      case SetAddress => n.phase == SendCid && n.version == s.version
      case SendCid => n.phase == SendCsd && n.version == s.version
      case SendCsd => n.phase == SelDesCard && n.version == s.version
      case SelDesCard => n.phase == CheckSts && n.version == s.version
      case CheckSts =>
        if s.version == Mmc then n.phase == ExtCsd || n.phase == Final else n.phase == SetBwApp || n.phase == SendScr
      case _ => true
  {
    hide Refused, Waits, SkipsHighSpeed, Wide, NextStage, NextCount, NextRca, NextHighSpeed, NextHighCapacity,
      NextWriteProtected, NextPushPull, NextProt, NextCcc;
  }

  lemma AddressReads(h: Host, s: State, i: Input, q: Stage)
    requires Follows(s, q) && !Refused(h, s, i)
    requires s.phase in {AllSendCid, SetAddress, SendCid, SendCsd, SelDesCard, CheckSts}
    ensures var r := Reads(q, Awaited(h, Next(h, s, i)));
      r.Some? && Follows(Next(h, s, i), r.value)
  {
    hide Reads, Argument, Opcode, Next, Refused;
    AddressMoves(h, s, i);
    AddressCommands(h, Next(h, s, i));
    AddressChain(q, Awaited(h, Next(h, s, i)));
  }

  lemma SdCommands(h: Host, s: State)
    ensures var c := Awaited(h, s);
      match s.phase
      case SetBw => c.opcode == SWITCH && c.argument == BUS_4BIT
      case SendScr => c.opcode == APP_CMD
      case ParseScr => c.opcode == SD_SEND_SCR
      case CheckMode => c.opcode == SWITCH && c.argument == CHECK_HIGH_SPEED
      case SwitchMode => c.opcode == SWITCH && c.argument == SWITCH_HIGH_SPEED
      case Final => c.opcode == SET_BLOCKLEN
      case _ => true
  {
    hide RcaArg, SdOcr, MmcOcr, BusWidthArg;
  }

  lemma SdChain(q: Stage, c: Command)
    ensures q == TailApp && c.opcode == SWITCH && c.argument == BUS_4BIT ==> Reads(q, c) == Some(Width)
    ensures q in {TailApp, ScrApp} && c.opcode == SD_SEND_SCR ==> Reads(q, c) == Some(Scr)
    ensures q == Width && c.opcode == APP_CMD ==> Reads(q, c) == Some(ScrApp)
    ensures q == Scr && c.opcode == SWITCH && c.argument == CHECK_HIGH_SPEED ==> Reads(q, c) == Some(CheckedMode)
    ensures q == CheckedMode && c.opcode == SWITCH && c.argument == SWITCH_HIGH_SPEED ==>
      Reads(q, c) == Some(SwitchedMode)
    ensures q in {Width, Scr, CheckedMode, SwitchedMode} && c.opcode == SET_BLOCKLEN ==> Reads(q, c) == Some(Complete)
  {
  }

  lemma SdMoves(h: Host, s: State, i: Input)
    requires !Refused(h, s, i)
    ensures var p := NextPhase(h, s, i);
      match s.phase
      case SetBwApp => p == SetBw
      case SetBw => p == SendScr || p == Final
      case SendScr => p == ParseScr
      case ParseScr => p == CheckMode || p == Final
      case CheckMode => p == SwitchMode || p == Final
      case SwitchMode => p == Final
      case _ => true
  {
    hide Refused, Waits, SkipsHighSpeed, Wide;
  }

  lemma SdTailReads(h: Host, s: State, i: Input, q: Stage)
    requires Follows(s, q) && !Refused(h, s, i)
    requires s.phase in {SetBwApp, SetBw, SendScr, ParseScr, CheckMode, SwitchMode}
    ensures var r := Reads(q, Awaited(h, Next(h, s, i)));
      r.Some? && Follows(Next(h, s, i), r.value)
  {
    hide Reads, Awaited, NextPhase, Refused, NextStage, NextCount, NextRca, NextVersion, NextHighSpeed,
      NextHighCapacity, NextWriteProtected, NextPushPull, NextProt, NextCcc;
    SdMoves(h, s, i);
    SdCommands(h, Next(h, s, i));
    SdChain(q, Awaited(h, Next(h, s, i)));
  }

  lemma {:induction false} RepeatReads(q: Stage, r: Stage, c: Command, n: nat)
    requires Reads(q, c) == Some(r) && Reads(r, c) == Some(r)
    ensures ReadAll(q, seq(n, _ => c)) == Some(if n == 0 then q else r)
  {
    hide Reads;
    if n > 0 {
      RepeatReads(q, r, c, n - 1);
      var w := seq(n, _ => c);
      assert w[..n - 1] == seq(n - 1, _ => c);
    }
  }

  /** The status commands of a wait, before and after the bus width is switched. */
  lemma PollsRead(h: Host, s: State, i: Input, q: Stage)
    requires q in {Extended, Partitions, Timing, Bus}
    ensures ReadAll(q, Polls(h, s, i)) == Some(if !h.busyBug then q else if q == Bus then BusyAfter else BusyBefore)
  {
    hide RcaArg;
    if h.busyBug {
      var c := Command(SEND_STATUS, RcaArg(s), s.pushPull);
      RepeatReads(q, if q == Bus then BusyAfter else BusyBefore, c, 1 + i.polls);
    }
  }

  /** The commands an MMC tail call completes leave the grammar ready for any bus or block-length command. */
  lemma CompletedRead(h: Host, s: State, i: Input, q: Stage)
    requires Follows(s, q) && (s.phase == ExtCsd || s.phase == SwitchHs || s.phase == SwitchBw)
    ensures var r := ReadAll(q, Completed(h, s, i));
      && r.Some?
      && (if s.phase == SwitchBw then r.value == Bus || r.value == BusyAfter
          else if Waits(h, s, i) then r.value == BusyBefore || r.value == q || r.value == Partitions
          else r.value == q || (s.phase == ExtCsd && r.value == Partitions))
  {
    hide Reads, Waits, Partitioned, NextPhase, Polls;
    var c := Command(SWITCH, ERASE_GROUP_DEF, s.pushPull);
    var partitions := s.phase == ExtCsd && NextPhase(h, s, i) != ExtCsd && Partitioned(i);
    var first := if partitions then [c] else [];
    var polls := if Waits(h, s, i) then Polls(h, s, i) else [];
    ReadOne(q, c);
    ReadAppend(q, first, polls);
    PartitionsRead(s.pushPull);
    PollsRead(h, s, i, if partitions then Partitions else q);
    assert Completed(h, s, i) == first + polls;
  }

  lemma PartitionsRead(pushPull: bool)
    ensures Reads(Extended, Command(SWITCH, ERASE_GROUP_DEF, pushPull)) == Some(Partitions)
  {
  }

  lemma TailCommands(h: Host, s: State)
    ensures s.phase == SwitchHs ==> Awaited(h, s).opcode == SWITCH && Awaited(h, s).argument == HS_TIMING
    ensures s.phase == SwitchBw ==> IsBusWidth(Awaited(h, s))
    ensures s.phase == Final ==> Awaited(h, s).opcode == SET_BLOCKLEN
  {
    hide RcaArg, SdOcr, MmcOcr;
  }

  lemma TailReads(q: Stage, c: Command)
    ensures q in {Extended, Partitions} && c.opcode == SWITCH && c.argument == HS_TIMING ==> Reads(q, c) == Some(Timing)
    ensures q in {Extended, Partitions, Timing, BusyBefore} && IsBusWidth(c) ==> Reads(q, c) == Some(Bus)
    ensures q in {Extended, Partitions, Timing, Bus, BusyAfter} && c.opcode == SET_BLOCKLEN ==>
      Reads(q, c) == Some(Complete)
  {
  }

  lemma MmcTailReads(h: Host, s: State, i: Input, q: Stage)
    requires Follows(s, q) && (s.phase == ExtCsd || s.phase == SwitchHs || s.phase == SwitchBw)
    requires !Refused(h, s, i)
    ensures var r := ReadAll(q, Completed(h, s, i));
      && r.Some?
      && Reads(r.value, Awaited(h, Next(h, s, i))).Some?
      && Follows(Next(h, s, i), Reads(r.value, Awaited(h, Next(h, s, i))).value)
  {
    hide Completed, Awaited, Reads, ReadAll, WideMmc, CardIs26Or52, NextCount, NextRca, NextStage, NextVersion,
      NextHighSpeed, NextHighCapacity, NextWriteProtected, NextPushPull, NextProt, NextCcc, IsBusWidth;
    CompletedRead(h, s, i, q);
    TailCommands(h, Next(h, s, i));
    TailReads(ReadAll(q, Completed(h, s, i)).value, Awaited(h, Next(h, s, i)));
  }

  lemma NothingCompleted(h: Host, s: State, i: Input)
    requires s.phase != ExtCsd && s.phase != SwitchHs && s.phase != SwitchBw
    ensures Completed(h, s, i) == []
  {
    hide NextPhase, Partitioned, Polls;
  }

  lemma PlainReads(h: Host, s: State, i: Input, q: Stage)
    requires Follows(s, q) && Sorted(s) && !Silent(h, s, i)
    requires s.phase != ExtCsd && s.phase != SwitchHs && s.phase != SwitchBw
    ensures var r := Reads(q, Awaited(h, Next(h, s, i)));
      r.Some? && Follows(Next(h, s, i), r.value)
  {
    hide Follows, Sorted, Next, Awaited, Reads;
    match s.phase
    case SdPowerup => PowerupReads(h, s, i, q);
    case MmcPowerup => PowerupReads(h, s, i, q);
    case Start => StartReads(h, s, i, q);
    case GoIdle => StartReads(h, s, i, q);
    case CardVersion => StartReads(h, s, i, q);
    case SetBwApp => SdTailReads(h, s, i, q);
    case SetBw => SdTailReads(h, s, i, q);
    case SendScr => SdTailReads(h, s, i, q);
    case ParseScr => SdTailReads(h, s, i, q);
    case CheckMode => SdTailReads(h, s, i, q);
    case SwitchMode => SdTailReads(h, s, i, q);
    case _ => AddressReads(h, s, i, q);
  }

  lemma SilentFollows(h: Host, s: State, i: Input, q: Stage)
    requires Follows(s, q) && Ok(h, s, i) && (Stutters(s, i) || s.phase == Final)
    ensures Follows(Next(h, s, i), q)
  {
    if Stutters(s, i) {
      StutterStays(h, s, i);
    }
  }

  /** Each call's commands continue the word, and a successful call awaits the answer of the last. */
  lemma StepReads(h: Host, s: State, i: Input, q: Stage)
    requires Follows(s, q) && Sorted(s)
    ensures var r := ReadAll(q, Sent(h, s, i));
      r.Some? && (Ok(h, s, i) ==> Follows(Next(h, s, i), r.value))
  {
    hide Next, Awaited, Reads, ReadAll, Completed, Refused, Sorted, Follows;
    var c := Awaited(h, Next(h, s, i));
    if s.phase == ExtCsd || s.phase == SwitchHs || s.phase == SwitchBw {
      CompletedRead(h, s, i, q);
      if !Silent(h, s, i) {
        MmcTailReads(h, s, i, q);
      }
    } else {
      NothingCompleted(h, s, i);
      if !Silent(h, s, i) {
        PlainReads(h, s, i, q);
      } else if Ok(h, s, i) {
        SilentFollows(h, s, i, q);
      }
      ReadNothing(q);
    }
    ReadOne(ReadAll(q, Completed(h, s, i)).value, c);
    ReadAppend(q, Completed(h, s, i), [c]);
    assert Completed(h, s, i) + [] == Completed(h, s, i);
  }

  lemma ReadNothing(q: Stage)
    ensures ReadAll(q, []) == Some(q)
  {
  }

  // ----- attempts -----

  /** The commands of an attempt. */
  function Trace(h: Host, s: State, ins: seq<Input>): seq<Command> {
    if ins == [] then []
    else
      var last := |ins| - 1;
      Trace(h, s, ins[..last]) + Sent(h, After(h, s, ins[..last]), ins[last])
  }

  lemma {:induction false} AttemptReads(h: Host, s: State, ins: seq<Input>)
    requires Inv(h, s) && s.phase == Start && Succeeds(h, s, ins)
    ensures Inv(h, After(h, s, ins))
    ensures var r := ReadAll(Off, Trace(h, s, ins)); r.Some? && Follows(After(h, s, ins), r.value)
  {
    hide Inv, Next, Ok, Sent, Reads, ReadAll, Follows;
    if ins == [] {
      ReadNothing(Off);
      OffFollows(s);
    } else {
      var last := |ins| - 1;
      SucceedsLast(h, s, ins);
      AttemptReads(h, s, ins[..last]);
      AttemptStep(h, After(h, s, ins[..last]), ins[last], Trace(h, s, ins[..last]));
    }
  }

  lemma OffFollows(s: State)
    requires s.phase == Start
    ensures Follows(s, Off)
  {
  }

  lemma AttemptStep(h: Host, s: State, i: Input, v: seq<Command>)
    requires Inv(h, s) && ReadAll(Off, v).Some? && Follows(s, ReadAll(Off, v).value)
    ensures Inv(h, Next(h, s, i))
    ensures var r := ReadAll(Off, v + Sent(h, s, i));
      r.Some? && (Ok(h, s, i) ==> Follows(Next(h, s, i), r.value))
  {
    hide Next, Ok, Sent, ReadAll, Follows, Bounded, Sorted, Drained, Allowed, Clean;
    StepKeeps(h, s, i);
    StepReads(h, s, i, ReadAll(Off, v).value);
    ReadAppend(Off, v, Sent(h, s, i));
  }

  /** Whatever the card answers, the commands of an attempt, the failing call included, are a prefix of
      a word of the grammar; those of a completed attempt are a word. */
  lemma AttemptSpeaksGrammar(h: Host, s: State, ins: seq<Input>, i: Input)
    requires Inv(h, s) && s.phase == Start && Succeeds(h, s, ins)
    ensures exists w :: Word(Trace(h, s, ins + [i]) + w)
    ensures After(h, s, ins).phase == Done ==> Word(Trace(h, s, ins))
  {
    AttemptReads(h, s, ins);
    hide Inv, Next, Ok, Sent, Reads, ReadAll;
    AttemptStep(h, After(h, s, ins), i, Trace(h, s, ins));
    assert (ins + [i])[..|ins|] == ins;
    PrefixOfWord(Trace(h, s, ins + [i]), ReadAll(Off, Trace(h, s, ins + [i])).value);
  }

  // ----- application commands -----

  predicate Application(c: Command) {
    c.opcode == SD_SEND_OP_COND || c.opcode == SD_SEND_SCR || (c.opcode == SWITCH && c.argument == BUS_4BIT)
  }

  predicate AfterApp(q: Stage) {
    q in {FirstApp, App, TailApp, ScrApp}
  }

  lemma OnlyAppReadsApplication(q: Stage, c: Command)
    requires Reads(q, c).Some?
    ensures Application(c) ==> AfterApp(q)
    ensures AfterApp(Reads(q, c).value) ==> c.opcode == APP_CMD
  {
  }

  /** In the grammar an application command directly follows CMD55. */
  lemma {:induction false} ApplicationFollowsApp(w: seq<Command>, k: nat)
    requires ReadAll(Off, w).Some? && k < |w| && Application(w[k])
    ensures k > 0 && w[k - 1].opcode == APP_CMD
    decreases |w|
  {
    hide Reads, Application;
    var last := |w| - 1;
    if k < last {
      ApplicationFollowsApp(w[..last], k);
    } else {
      OnlyAppReadsApplication(ReadAll(Off, w[..last]).value, w[last]);
      if last > 0 {
        assert w[..last][..last - 1] == w[..last - 1];
        OnlyAppReadsApplication(ReadAll(Off, w[..last - 1]).value, w[last - 1]);
      }
    }
  }

  lemma CompletedPlain(h: Host, s: State, i: Input)
    ensures forall c :: c in Completed(h, s, i) ==> !Application(c)
  {
    hide NextPhase, Waits, Partitioned, RcaArg;
    assert forall c :: c in Polls(h, s, i) ==> c.opcode == SEND_STATUS;
  }

  lemma AwaitedApplication(h: Host, s: State)
    requires Application(Awaited(h, s))
    ensures s.phase == SetBw || s.phase == ParseScr || (s.phase == SdPowerup && s.istage != 1 && s.istage % 3 != 0)
  {
    hide RcaArg, SdOcr, MmcOcr;
  }

  lemma ReachesApplication(h: Host, s: State, i: Input)
    requires !Refused(h, s, i)
    ensures var n := Next(h, s, i);
      && (n.phase == SetBw ==> s.phase == SetBwApp && !i.error)
      && (n.phase == ParseScr ==> s.phase == SendScr && !i.error)
      && (n.phase == SdPowerup && n.istage != 1 && n.istage % 3 != 0 ==> s.phase == SdPowerup && !i.error)
  {
    hide Bit, TimedOut, SkipsHighSpeed, Wide, WideMmc, NextCount, NextRca, NextVersion, NextHighSpeed, NextHighCapacity,
      NextWriteProtected, NextPushPull, NextProt, NextCcc;
  }

  /** A call that issues an application command issues nothing else, and its interrupt has no error. */
  lemma ApplicationNeedsQuiet(h: Host, s: State, i: Input, c: Command)
    requires c in Sent(h, s, i) && Application(c)
    ensures Sent(h, s, i) == [c] && !i.error
    ensures s.phase == SdPowerup || s.phase == SetBwApp || s.phase == SendScr
  {
    hide Completed, Application, Awaited, Next, Refused;
    CompletedPlain(h, s, i);
    AwaitedApplication(h, Next(h, s, i));
    ReachesApplication(h, s, i);
    NothingCompleted(h, s, i);
  }

  /** The last command of a successful call is the one its state awaits. */
  lemma AwaitsLast(h: Host, s: State, i: Input)
    requires Ok(h, s, i)
    requires var p := NextPhase(h, s, i); p == SdPowerup || p == SetBwApp || p == SendScr
    ensures var sent := Sent(h, s, i); sent != [] && sent[|sent| - 1] == Awaited(h, Next(h, s, i))
  {
    hide Completed, Awaited, Next, Refused;
  }

  lemma AwaitsApp(s: State, q: Stage)
    requires Follows(s, q) && AfterApp(q)
    ensures Opcode(s) == APP_CMD
  {
  }

  lemma ApplicationAwaitsApp(h: Host, s: State, i: Input, c: Command, q: Stage)
    requires Follows(s, q) && Sorted(s) && Sent(h, s, i) == [c] && Application(c)
    ensures Opcode(s) == APP_CMD
  {
    hide Reads, Sent, Sorted, Follows, Application, AfterApp, Opcode;
    StepReads(h, s, i, q);
    ReadOne(q, c);
    OnlyAppReadsApplication(q, c);
    AwaitsApp(s, q);
  }

  /** In every attempt, opcodes 41 and 51 and opcode 6 with argument 2 are the only command of their
      call, directly follow the CMD55 of the call before, and handle an interrupt without error. */
  lemma ApplicationCommands(h: Host, s: State, ins: seq<Input>, i: Input, c: Command)
    requires Inv(h, s) && s.phase == Start && Succeeds(h, s, ins)
    requires c in Sent(h, After(h, s, ins), i) && Application(c)
    ensures ins != [] && Sent(h, After(h, s, ins), i) == [c] && !i.error
    ensures var before := Sent(h, After(h, s, ins[..|ins| - 1]), ins[|ins| - 1]);
      before != [] && before[|before| - 1].opcode == APP_CMD
  {
    hide Clean, Bounded, Drained, Sorted, Allowed, Next, Ok, Sent, Reads, ReadAll, Follows, Application, Opcode,
      Argument;
    var n := After(h, s, ins);
    ApplicationNeedsQuiet(h, n, i, c);
    AttemptReads(h, s, ins);
    ApplicationAwaitsApp(h, n, i, c, ReadAll(Off, Trace(h, s, ins)).value);
    SucceedsLast(h, s, ins);
    var p, ip := After(h, s, ins[..|ins| - 1]), ins[|ins| - 1];
    PhaseOfNext(h, p, ip);
    AwaitsLast(h, p, ip);
  }
}
