/** Runs of the identification handler: what every call keeps, that every attempt ends, and what the
    card flags mean when it has. */
module IdentRuns {
  import opened IdentModel

  /** The control thread restarts identification; an interrupt continues it. */
  datatype Call = Restart(i: Input) | Irq(i: Input)

  function Do(h: Host, s: State, c: Call): Outcome {
    match c
    case Restart(i) => Step(h, s.(phase := Start), i)
    case Irq(i) => Step(h, s, i)
  }

  function Session(h: Host, s: State, calls: seq<Call>): State {
    if calls == [] then s else Do(h, Session(h, s, calls[..|calls| - 1]), calls[|calls| - 1]).state
  }

  /** An attempt: the calls of one restart and the interrupts after it. */
  function After(h: Host, s: State, ins: seq<Input>): State {
    if ins == [] then s else Step(h, After(h, s, ins[..|ins| - 1]), ins[|ins| - 1]).state
  }

  /** Every call of the attempt succeeds; the driver gives up at the first that does not. */
  ghost predicate Succeeds(h: Host, s: State, ins: seq<Input>) {
    forall k :: 0 <= k < |ins| ==> Ok(h, After(h, s, ins[..k]), ins[k])
  }

  lemma SucceedsLast(h: Host, s: State, ins: seq<Input>)
    requires ins != []
    ensures Succeeds(h, s, ins) <==>
      Succeeds(h, s, ins[..|ins| - 1]) && Ok(h, After(h, s, ins[..|ins| - 1]), ins[|ins| - 1])
  {
    hide After, Ok;
    var last := |ins| - 1;
    assert forall k :: 0 <= k <= last ==> ins[..last][..k] == ins[..k];
  }

  // ----- what every call keeps -----

  /** The stage stays far inside 16 bits. */
  predicate Bounded(h: Host, s: State) {
    && s.count <= h.powerRetry
    && s.istage <= 3001
    && (s.phase == SdPowerup ==> s.istage <= 1001)
  }

  /** Power cycles are counted only while restarting. */
  predicate Counting(s: State) {
    s.count > 0 ==> s.phase == Start
  }

  /** Only a restart that has not yet cycled the power has left-over flags. */
  predicate SpeedClean(s: State) {
    match s.phase
    case Start => s.highSpeed ==> s.count == 0
    case SwitchBw => true
    case Final => true
    case Done => true
    case _ => !s.highSpeed
  }

  predicate CapacityClean(s: State) {
    match s.phase
    case Start => s.highCapacity ==> s.count == 0
    case GoIdle => !s.highCapacity
    case CardVersion => !s.highCapacity
    case _ => true
  }

  /** Without a lock switch, only a card's register write-protects it. */
  predicate LockClean(h: Host, s: State) {
    match s.phase
    case Start => s.writeProtected ==> h.lockSwitch || s.count == 0
    case GoIdle => s.writeProtected ==> h.lockSwitch
    case CardVersion => s.writeProtected ==> h.lockSwitch
    case SdPowerup => s.writeProtected ==> h.lockSwitch
    case MmcPowerup => s.writeProtected ==> h.lockSwitch
    case AllSendCid => s.writeProtected ==> h.lockSwitch
    case SetAddress => s.writeProtected ==> h.lockSwitch
    case SendCid => s.writeProtected ==> h.lockSwitch
    case SendCsd => s.writeProtected ==> h.lockSwitch
    case _ => true
  }

  predicate Clean(h: Host, s: State) {
    Counting(s) && SpeedClean(s) && CapacityClean(s) && LockClean(h, s)
  }

  /** MMC cards are probed and addressed with open-drain commands, everything else is push-pull. */
  predicate OpenDrain(s: State) {
    match s.phase
    case MmcPowerup => true
    case AllSendCid => s.version == Mmc
    case SetAddress => s.version == Mmc
    case _ => false
  }

  predicate Drained(s: State) {
    match s.phase
    case Start => s.count == 0 || s.pushPull
    case Done => true
    case _ => s.pushPull <==> !OpenDrain(s)
  }

  /** Which card is identified in which phase. */
  predicate Sorted(s: State) {
    match s.phase
    case SdPowerup => s.version != Mmc
    case MmcPowerup => s.version == Sd1
    case SetBwApp => s.version != Mmc
    case SetBw => s.version != Mmc
    case SendScr => s.version != Mmc
    case ParseScr => s.version != Mmc
    case CheckMode => s.version != Mmc
    case SwitchMode => s.version != Mmc
    case ExtCsd => s.version == Mmc
    case SwitchHs => s.version == Mmc
    case SwitchBw => s.version == Mmc
    case _ => true
  }

  /** What the host and the card allowed on the way to a phase. */
  predicate Allowed(h: Host, s: State) {
    match s.phase
    case SetBwApp => Wide(h)
    case SetBw => Wide(h)
    case SendScr => Wide(h) ==> !h.noHighSpeed
    case ParseScr => Wide(h) ==> !h.noHighSpeed
    case CheckMode => Wide(h) ==> !h.noHighSpeed
    case SwitchMode => h.highSpeed && CardHasSwitch(s) && (Wide(h) ==> !h.noHighSpeed)
    case SwitchHs => h.highSpeed
    case _ => true
  }

  predicate Inv(h: Host, s: State) {
    Bounded(h, s) && Clean(h, s) && Drained(s) && Sorted(s) && Allowed(h, s)
  }

  /** The driver starts with everything zero. */
  predicate Booted(s: State) {
    s.phase == Done && s.istage == s.count == 0 && !s.highSpeed && !s.highCapacity && !s.writeProtected
  }

  lemma BootInv(h: Host, s: State)
    requires Booted(s)
    ensures Inv(h, s) && Inv(h, s.(phase := Start))
  {
  }

  lemma BoundedKept(h: Host, s: State, i: Input)
    requires Bounded(h, s)
    ensures Bounded(h, Next(h, s, i))
  {
    hide Bit, SkipsHighSpeed, Wide, WideMmc, NextVersion, NextRca, NextHighSpeed, NextHighCapacity,
      NextWriteProtected, NextPushPull, NextProt, NextCcc;
  }

  lemma SpeedKept(h: Host, s: State, i: Input)
    requires Counting(s) && SpeedClean(s)
    ensures Counting(Next(h, s, i)) && SpeedClean(Next(h, s, i))
  {
    hide Bit, Answered, MaybeMmc, TimedOut, SkipsHighSpeed, Wide, NextStage, NextVersion, NextRca,
      NextHighCapacity, NextWriteProtected, NextPushPull, NextProt, NextCcc;
  }

  lemma CapacityKept(h: Host, s: State, i: Input)
    requires Counting(s) && CapacityClean(s)
    ensures CapacityClean(Next(h, s, i))
  {
    hide Bit, Answered, MaybeMmc, TimedOut, SkipsHighSpeed, Wide, WideMmc, NextStage, NextVersion, NextRca,
      NextHighSpeed, NextWriteProtected, NextPushPull, NextProt, NextCcc;
  }

  lemma LockKept(h: Host, s: State, i: Input)
    requires Counting(s) && LockClean(h, s)
    ensures LockClean(h, Next(h, s, i))
  {
    hide Bit, Answered, MaybeMmc, TimedOut, SkipsHighSpeed, Wide, WideMmc, CsdLocked, NextStage, NextVersion,
      NextRca, NextHighSpeed, NextHighCapacity, NextPushPull, NextProt, NextCcc;
  }

  lemma DrainedKept(h: Host, s: State, i: Input)
    requires Drained(s) && Counting(s) && Sorted(s)
    ensures Drained(Next(h, s, i))
  {
    hide Bit, Answered, TimedOut, SkipsHighSpeed, Wide, WideMmc, NextStage, NextRca, NextHighSpeed,
      NextHighCapacity, NextWriteProtected, NextProt, NextCcc;
  }

  lemma SortedKept(h: Host, s: State, i: Input)
    requires Sorted(s)
    ensures Sorted(Next(h, s, i))
  {
    hide Bit, TimedOut, SkipsHighSpeed, Wide, WideMmc, NextStage, NextCount, NextRca, NextHighSpeed,
      NextHighCapacity, NextWriteProtected, NextPushPull, NextProt, NextCcc;
  }

  lemma AllowedKept(h: Host, s: State, i: Input)
    requires Allowed(h, s)
    ensures Allowed(h, Next(h, s, i))
  {
    hide Bit, Byte, Answered, MaybeMmc, PoweredUp, TimedOut, CardIs26Or52, CardOffersHighSpeed, Wide, WideMmc,
      NextStage, NextCount, NextVersion, NextRca, NextHighSpeed, NextHighCapacity, NextWriteProtected, NextPushPull,
      NextProt;
  }

  lemma StepKeeps(h: Host, s: State, i: Input)
    requires Inv(h, s)
    ensures Inv(h, Next(h, s, i))
  {
    hide Next, Counting, SpeedClean, CapacityClean, LockClean, Bounded, Drained, Sorted, Allowed;
    BoundedKept(h, s, i);
    SpeedKept(h, s, i);
    CapacityKept(h, s, i);
    LockKept(h, s, i);
    DrainedKept(h, s, i);
    SortedKept(h, s, i);
    AllowedKept(h, s, i);
  }

  lemma {:induction false} SessionKeeps(h: Host, s: State, calls: seq<Call>)
    requires Inv(h, s)
    ensures Inv(h, Session(h, s, calls))
  {
    hide Next;
    if calls != [] {
      var last := |calls| - 1;
      SessionKeeps(h, s, calls[..last]);
      var s1 := Session(h, s, calls[..last]);
      StepKeeps(h, s1.(phase := Start), calls[last].i);
      StepKeeps(h, s1, calls[last].i);
    }
  }

  lemma PhaseOfNext(h: Host, s: State, i: Input)
    ensures Next(h, s, i).phase == NextPhase(h, s, i)
  {
    hide NextPhase, NextStage, NextCount, NextRca, NextVersion, NextHighSpeed, NextHighCapacity,
      NextWriteProtected, NextPushPull, NextProt, NextCcc;
  }

  // ----- every attempt ends -----

  /** How many more successful calls an attempt can take. */
  function Rank(h: Host, s: State): nat
    requires Bounded(h, s)
  {
    match s.phase
    case Done => 0
    case Start => 4022 + h.powerRetry - s.count
    case GoIdle => 4021
    case CardVersion => 4020
    case SdPowerup => 3018 + (1001 - s.istage)
    case MmcPowerup => 16 + (3001 - s.istage)
    case AllSendCid => 15
    case SetAddress => 14
    case SendCid => 13
    case SendCsd => 12
    case SelDesCard => 11
    case CheckSts => 10
    case SetBwApp => 9
    case SetBw => 8
    case SendScr => 7
    case ParseScr => 6
    case CheckMode => 5
    case SwitchMode => 4
    case ExtCsd => 9
    case SwitchHs => 8
    case SwitchBw => 7
    case Final => 1
  }

  lemma RankFalls(h: Host, s: State, i: Input)
    requires Bounded(h, s) && Ok(h, s, i) && !Stutters(s, i)
    ensures Bounded(h, Next(h, s, i))
    ensures Rank(h, Next(h, s, i)) < Rank(h, s)
  {
    hide Bit, SkipsHighSpeed, Wide, WideMmc, NextVersion, NextRca, NextHighSpeed, NextHighCapacity,
      NextWriteProtected, NextPushPull, NextProt, NextCcc;
    BoundedKept(h, s, i);
  }

  lemma StutterStays(h: Host, s: State, i: Input)
    requires Stutters(s, i)
    ensures Next(h, s, i) == s && Ok(h, s, i) && Sent(h, s, i) == []
  {
  }

  /** The calls of an attempt that stutter. */
  function Stutterings(h: Host, s: State, ins: seq<Input>): nat {
    if ins == [] then 0
    else
      var last := |ins| - 1;
      Stutterings(h, s, ins[..last]) + if Stutters(After(h, s, ins[..last]), ins[last]) then 1 else 0
  }

  lemma {:induction false} AttemptSpends(h: Host, s: State, ins: seq<Input>)
    requires Bounded(h, s) && Succeeds(h, s, ins)
    ensures Bounded(h, After(h, s, ins))
    ensures |ins| + Rank(h, After(h, s, ins)) <= Rank(h, s) + Stutterings(h, s, ins)
  {
    hide Next, Rank, Bounded, Refused, Ok, Stutters, Succeeds;
    if ins != [] {
      var last := |ins| - 1;
      SucceedsLast(h, s, ins);
      AttemptSpends(h, s, ins[..last]);
      if Stutters(After(h, s, ins[..last]), ins[last]) {
        StutterStays(h, After(h, s, ins[..last]), ins[last]);
      } else {
        RankFalls(h, After(h, s, ins[..last]), ins[last]);
      }
    }
  }

  /** Whatever the card and the controller answer, an attempt succeeds at most 4022 times plus once for
      each power-up retry, apart from stutters: then it has finished or failed. */
  lemma AttemptsEnd(h: Host, s: State, ins: seq<Input>)
    requires Bounded(h, s) && s.phase == Start && Succeeds(h, s, ins)
    ensures |ins| <= 4022 + h.powerRetry + Stutterings(h, s, ins)
    ensures After(h, s, ins).istage <= 3001
  {
    hide After, Succeeds, Stutterings;
    AttemptSpends(h, s, ins);
  }

  /** Before the reset is acknowledged nothing else stutters, and each stutter is an interrupt with
      neither a completed command nor an error. */
  lemma {:induction false} NoStutters(h: Host, s: State, ins: seq<Input>)
    requires forall k :: 0 <= k < |ins| ==> ins[k].command || ins[k].error
    ensures Stutterings(h, s, ins) == 0
  {
    hide After;
    if ins != [] {
      NoStutters(h, s, ins[..|ins| - 1]);
    }
  }
}
