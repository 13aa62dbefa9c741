/** The option that disables high speed: which controllers honour it, for SD and for MMC cards. */
module IdentNoHs {
  import opened Csd
  import opened IdentChoices
  import opened IdentModel
  import opened IdentRuns
  import opened Powers

  /** Zeroed at boot, restarted by the control thread. */
  predicate Restarted(s: State) {
    s.phase == Start && s.istage == s.count == 0 && !s.highSpeed && !s.highCapacity && !s.writeProtected
  }

  /** The fastest card: every answer of it, to every command. */
  function Best(): Input {
    Input(true, false, false, Response(0x8000_01AA, 0, 0x4000_0000, 0), true, true, true, false, true, true, true,
          seq(64, k => if k == 13 then 2 else 1), 0, true)
  }

  lemma BestResponse()
    ensures var w := Best().resp.w0; Field(w, 0, 13) == VOLTAGE_PATTERN && PoweredUp(Best())
    ensures Shr(Best().resp.w2, 20) == 1024 && Bit(1024, 10)
  {
    hide Pow2;
    PowerValues();
    assert Best().resp.w0 == 0x8000_01AA && Best().resp.w2 == 0x4000_0000;
  }

  lemma BestData()
    ensures CardOffersHighSpeed(Best()) && CardSwitched(Best()) && Byte(Best(), 0) % 16 == 1
  {
    hide Pow2;
    PowerValues();
    assert Byte(Best(), 13) == 2 && Byte(Best(), 16) == 1;
  }

  lemma BestRegister()
    ensures SdLayout(Register(Best().resp)).ccc == 1024
  {
    hide SdLayout, Register, Bits, Shr, Join, Best;
    UnmaskedSlices(Best().resp);
    CccBits(Register(Best().resp));
    BestResponse();
  }

  lemma CccBits(reg: nat)
    ensures SdLayout(reg).ccc == Bits(reg, 95, 84)
  {
    hide Bits;
  }

  /** The states after the power cycles of the fastest card's run. */
  predicate OnPath(k: nat, s: State) {
    && s.istage <= 2
    && (3 <= k <= 10 ==> s.version == Sd2)
    && (9 <= k <= 13 ==> s.ccc == 1024)
    && match k
       case 1 => s.phase == GoIdle
       case 2 => s.phase == CardVersion
       case 3 => s.phase == SdPowerup && s.istage == 1
       case 4 => s.phase == SdPowerup && s.istage == 2
       case 5 => s.phase == AllSendCid
       case 6 => s.phase == SetAddress
       case 7 => s.phase == SendCid
       case 8 => s.phase == SendCsd
       case 9 => s.phase == SelDesCard
       case 10 => s.phase == CheckSts
       case 11 => s.phase == SendScr
       case 12 => s.phase == ParseScr
       case 13 => s.phase == CheckMode
       case 14 => s.phase == SwitchMode
       case _ => false
  }

  lemma BestStep(h: Host, k: nat, s: State)
    requires h.highSpeed && !Wide(h) && OnPath(k, s) && k < 14
    ensures OnPath(k + 1, Next(h, s, Best())) && Ok(h, s, Best())
  {
    BestResponse();
    BestData();
    BestRegister();
    hide Bit, Byte, Shr, Field, CardOffersHighSpeed, CardSwitched, PoweredUp, SdLayout, MmcLayout, Register, WideMmc,
      NextCount, NextRca, NextHighSpeed, NextHighCapacity, NextWriteProtected, NextPushPull, NextProt;
  }

  /** The first interrupts of an attempt, by their number. */
  function Fed(answers: nat -> Input, n: nat): seq<Input> {
    seq(n, k requires 0 <= k => answers(k))
  }

  /** The states of a run with these answers. */
  function Runs(h: Host, s: State, answers: nat -> Input, n: nat): State {
    After(h, s, Fed(answers, n))
  }

  lemma RunsNext(h: Host, s: State, answers: nat -> Input, n: nat)
    ensures Runs(h, s, answers, n + 1) == Next(h, Runs(h, s, answers, n), answers(n))
    ensures Succeeds(h, s, Fed(answers, n)) && Ok(h, Runs(h, s, answers, n), answers(n)) ==>
      Succeeds(h, s, Fed(answers, n + 1))
  {
    hide Next, Ok, Succeeds;
    var more := Fed(answers, n + 1);
    assert more[..n] == Fed(answers, n) && more[n] == answers(n);
    SucceedsLast(h, s, Fed(answers, n + 1));
  }

  ghost predicate Reached(h: Host, s: State, answers: nat -> Input, n: nat) {
    Succeeds(h, s, Fed(answers, n)) && Inv(h, Runs(h, s, answers, n))
  }

  predicate Starts(i: Input) {
    i.present && i.powered && i.sent && i.command && !i.error
  }

  lemma StartStep(h: Host, s: State, i: Input)
    requires s.phase == Start && Inv(h, s) && Starts(i)
    ensures var n := Next(h, s, i);
      && n.istage == s.istage
      && if s.count + 1 > h.powerRetry then n.phase == GoIdle else n.phase == Start && n.count == s.count + 1
    ensures Ok(h, s, i)
  {
    hide NextRca, NextVersion, NextHighSpeed, NextHighCapacity, NextWriteProtected, NextPushPull, NextProt, NextCcc,
      Clean, Bounded, Drained, Sorted, Allowed;
  }

  lemma {:induction false} CyclesPower(h: Host, s: State, answers: nat -> Input, n: nat)
    requires Restarted(s) && Inv(h, s) && n <= h.powerRetry && forall k: nat :: k < n ==> Starts(answers(k))
    ensures Reached(h, s, answers, n) && Runs(h, s, answers, n).count == n
    ensures Runs(h, s, answers, n).phase == Start && Runs(h, s, answers, n).istage == 0
  {
    hide Next, Ok, Inv, Succeeds, Runs;
    if n == 0 {
      RunsNone(h, s, answers);
    } else {
      CyclesPower(h, s, answers, n - 1);
      RunsNext(h, s, answers, n - 1);
      StartStep(h, Runs(h, s, answers, n - 1), answers(n - 1));
      StepKeeps(h, Runs(h, s, answers, n - 1), answers(n - 1));
    }
  }

  lemma RunsNone(h: Host, s: State, answers: nat -> Input)
    ensures Runs(h, s, answers, 0) == s && Succeeds(h, s, Fed(answers, 0))
  {
    assert Fed(answers, 0) == [];
  }

  lemma {:induction false} WalksPath(h: Host, s: State, k: nat)
    requires Restarted(s) && Inv(h, s) && h.highSpeed && !Wide(h) && 1 <= k <= 14
    ensures var answers := (n: nat) => Best();
      Reached(h, s, answers, h.powerRetry + k) && OnPath(k, Runs(h, s, answers, h.powerRetry + k))
  {
    hide Next, Runs, Succeeds, Inv, Ok, Wide, Best;
    BestStarts();
    var answers := (n: nat) => Best();
    var n := h.powerRetry + k - 1;
    if k == 1 {
      CyclesPower(h, s, answers, n);
      StartStep(h, Runs(h, s, answers, n), Best());
    } else {
      WalksPath(h, s, k - 1);
      BestStep(h, k - 1, Runs(h, s, answers, n));
    }
    RunsNext(h, s, answers, n);
    StepKeeps(h, Runs(h, s, answers, n), Best());
  }

  lemma BestStarts()
    ensures Starts(Best())
  {
  }

  /** Some attempt from boot asks an SD card to switch to high speed. */
  ghost predicate SwitchesSd(h: Host) {
    exists s: State, ins: seq<Input> ::
      Restarted(s) && Succeeds(h, s, ins) && After(h, s, ins).phase == SwitchMode
  }

  /** With the option that disables high speed, SD cards are still switched to it exactly when the
      controller has high speed and the bus is not the 4-bit one: only that bus's path looks at the
      option. */
  lemma NoHighSpeedExactly(h: Host)
    requires h.noHighSpeed
    ensures SwitchesSd(h) <==> h.highSpeed && !Wide(h)
  {
    hide Next, Wide, Best, Succeeds, After;
    if h.highSpeed && !Wide(h) {
      var s := State(Start, 0, 0, Sd1, 0, false, false, false, false, 0, 0);
      WalksPath(h, s, 14);
      var answers := (n: nat) => Best();
      assert After(h, s, Fed(answers, h.powerRetry + 14)).phase == SwitchMode;
    }
    if SwitchesSd(h) {
      var s: State, ins: seq<Input> :|
        Restarted(s) && Succeeds(h, s, ins) && After(h, s, ins).phase == SwitchMode;
      AttemptKeeps(h, s, ins);
    }
  }

  lemma {:induction false} AttemptKeeps(h: Host, s: State, ins: seq<Input>)
    requires Inv(h, s)
    ensures Inv(h, After(h, s, ins))
  {
    hide Next, Inv;
    if ins != [] {
      AttemptKeeps(h, s, ins[..|ins| - 1]);
      StepKeeps(h, After(h, s, ins[..|ins| - 1]), ins[|ins| - 1]);
    }
  }

  // ----- MMC cards -----

  /** The fastest MMC card, once it is addressed as one. */
  function BestMmc(): Input {
    Input(true, false, false, Response(0x8000_0000, 0, 0, 0x1000_0000), true, true, true, false, true, true, true,
          seq(512, k => if k == 196 then 1 else 0), 0, true)
  }

  /** It does not answer the commands that only an SD card knows. */
  function NoAnswer(): Input {
    BestMmc().(error := true, timeout := true)
  }

  function MmcAnswer(h: Host, n: nat): Input {
    if n == h.powerRetry + 2 || n == h.powerRetry + 3 then NoAnswer() else BestMmc()
  }

  predicate OnMmcPath(k: nat, s: State) {
    && (k == 3 ==> s.version == Sd1)
    && (7 <= k <= 13 ==> s.version == Mmc)
    && (11 <= k <= 13 ==> s.prot == 4)
    && match k
       case 1 => s.phase == GoIdle
       case 2 => s.phase == CardVersion
       case 3 => s.phase == SdPowerup && s.istage == 1
       case 4 => s.phase == MmcPowerup && s.istage == 0
       case 5 => s.phase == MmcPowerup && s.istage == 1
       case 6 => s.phase == MmcPowerup && s.istage == 2
       case 7 => s.phase == AllSendCid
       case 8 => s.phase == SetAddress
       case 9 => s.phase == SendCid
       case 10 => s.phase == SendCsd
       case 11 => s.phase == SelDesCard
       case 12 => s.phase == CheckSts
       case 13 => s.phase == ExtCsd
       case 14 => s.phase == SwitchHs
       case _ => false
  }

  lemma ProtBits(reg: nat)
    ensures MmcLayout(reg).prot == Bits(reg, 125, 122)
  {
    hide Bits;
  }

  lemma MmcWords()
    ensures Field(0x1000_0000, 26, 4) == 4 && Field(0x8000_0000, 31, 1) == 1
  {
    PowerValues();
    Pow2Values();
    assert Pow2(4) == 16 && Pow2(6) == 64;
    hide Pow2;
    Pow2Sum(20, 6);
  }

  lemma MmcRegister()
    ensures MmcLayout(Register(BestMmc().resp)).prot == 4 && PoweredUp(BestMmc())
  {
    hide Field, Register, MmcLayout;
    MmcWords();
    ProtBits(Register(BestMmc().resp));
    InWord(BestMmc().resp, 3, 26, 4);
  }

  lemma MmcData()
    ensures CardIs26Or52(BestMmc())
  {
    assert Byte(BestMmc(), 196) == 1;
  }

  lemma MmcStep(h: Host, k: nat, s: State)
    requires h.highSpeed && h.powerDelay <= 1500 && OnMmcPath(k, s) && k < 14
    ensures var i := if k == 2 || k == 3 then NoAnswer() else BestMmc();
      OnMmcPath(k + 1, Next(h, s, i)) && Ok(h, s, i)
  {
    MmcRegister();
    MmcData();
    hide Bit, Byte, Shr, Field, CardOffersHighSpeed, CardIs26Or52, PoweredUp, SdLayout, MmcLayout, Register, WideMmc,
      NextCount, NextRca, NextHighSpeed, NextHighCapacity, NextWriteProtected, NextPushPull, NextCcc;
  }

  lemma {:induction false} WalksMmcPath(h: Host, s: State, k: nat)
    requires Restarted(s) && Inv(h, s) && h.highSpeed && h.powerDelay <= 1500 && 1 <= k <= 14
    ensures var answers := (n: nat) => MmcAnswer(h, n);
      Reached(h, s, answers, h.powerRetry + k) && OnMmcPath(k, Runs(h, s, answers, h.powerRetry + k))
  {
    hide Next, Runs, Succeeds, Inv, Ok, BestMmc, NoAnswer;
    MmcStarts();
    var answers := (n: nat) => MmcAnswer(h, n);
    var n := h.powerRetry + k - 1;
    if k == 1 {
      CyclesPower(h, s, answers, n);
      StartStep(h, Runs(h, s, answers, n), answers(n));
    } else {
      WalksMmcPath(h, s, k - 1);
      MmcStep(h, k - 1, Runs(h, s, answers, n));
    }
    RunsNext(h, s, answers, n);
    StepKeeps(h, Runs(h, s, answers, n), answers(n));
  }

  lemma MmcStarts()
    ensures Starts(BestMmc())
  {
  }

  /** A card is known to be an MMC card only if the driver waits short enough for its power-up loop to look at
      an answer before the loop's three seconds are over. */
  predicate Patient(h: Host, s: State) {
    match s.phase
    case Done => true
    case Start => true
    case GoIdle => true
    case CardVersion => true
    case SdPowerup => true
    case MmcPowerup => true
    case _ => s.version == Mmc ==> h.powerDelay <= 1500
  }

  lemma PatientKept(h: Host, s: State, i: Input)
    requires Patient(h, s) && Sorted(s)
    ensures Patient(h, Next(h, s, i))
  {
    hide Bit, SkipsHighSpeed, Wide, WideMmc, NextStage, NextCount, NextRca, NextHighSpeed,
      NextHighCapacity, NextWriteProtected, NextPushPull, NextProt, NextCcc;
    if s.istage >= 2 && h.powerDelay > 1500 {
      LongDelay(h.powerDelay, s.istage);
    }
  }

  lemma LongDelay(delay: nat, stage: nat)
    requires delay > 1500 && stage >= 2
    ensures delay * stage > 3000
  {
    assert delay * stage == 2 * delay + delay * (stage - 2);
  }

  lemma {:induction false} AttemptPatient(h: Host, s: State, ins: seq<Input>)
    requires Inv(h, s) && Patient(h, s)
    ensures Patient(h, After(h, s, ins)) && Inv(h, After(h, s, ins))
  {
    hide Next, Inv, Patient, Bounded, Clean, Drained, Allowed;
    if ins != [] {
      var before := ins[..|ins| - 1];
      AttemptPatient(h, s, before);
      StepKeeps(h, After(h, s, before), ins[|ins| - 1]);
      InvSorted(h, After(h, s, before));
      PatientKept(h, After(h, s, before), ins[|ins| - 1]);
    }
  }

  lemma InvSorted(h: Host, s: State)
    requires Inv(h, s)
    ensures Sorted(s)
  {
  }

  /** Some attempt from boot asks an MMC card to switch to high speed. */
  ghost predicate SwitchesMmc(h: Host) {
    exists s: State, ins: seq<Input> ::
      Restarted(s) && Succeeds(h, s, ins) && After(h, s, ins).phase == SwitchHs
  }

  /** Whatever the option says, MMC cards are switched to high speed exactly by a controller that has it and
      does not wait longer than a second and a half in each stage of the power-up loop. */
  lemma MmcSwitchesExactly(h: Host)
    ensures SwitchesMmc(h) <==> h.highSpeed && h.powerDelay <= 1500
  {
    hide Next, BestMmc, NoAnswer, Succeeds, After;
    if h.highSpeed && h.powerDelay <= 1500 {
      var s := State(Start, 0, 0, Sd1, 0, false, false, false, false, 0, 0);
      WalksMmcPath(h, s, 14);
      var answers := (n: nat) => MmcAnswer(h, n);
      assert After(h, s, Fed(answers, h.powerRetry + 14)).phase == SwitchHs;
    }
    if SwitchesMmc(h) {
      var s: State, ins: seq<Input> :|
        Restarted(s) && Succeeds(h, s, ins) && After(h, s, ins).phase == SwitchHs;
      AttemptPatient(h, s, ins);
    }
  }
}
