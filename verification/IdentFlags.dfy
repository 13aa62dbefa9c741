/** What the card flags mean after any run of the identification handler. */
module IdentFlags {
  import opened Csd
  import opened IdentModel
  import opened IdentRuns
  import opened Words

  // ----- clean at every reset -----

  /** Over all sessions of restarts and interrupts, whenever the reset is awaited the high-speed and
      high-capacity flags are clear, and so is write protection unless a lock switch was read, even if
      power cycles were counted by attempts that failed. */
  lemma ResetIsClean(h: Host, s: State, calls: seq<Call>)
    requires Inv(h, s) && Session(h, s, calls).phase == GoIdle
    ensures var n := Session(h, s, calls);
      n.count == 0 && !n.highSpeed && !n.highCapacity && (n.writeProtected ==> h.lockSwitch)
  {
    hide Session, Bounded, Drained, Sorted, Allowed;
    SessionKeeps(h, s, calls);
  }

  /** So it is in every session since the driver started. */
  lemma ResetIsCleanSinceBoot(h: Host, s: State, calls: seq<Call>)
    requires Booted(s)
    ensures var n := Session(h, s, calls);
      Inv(h, n) && (n.phase == GoIdle ==> !n.highSpeed && !n.highCapacity && (n.writeProtected ==> h.lockSwitch))
  {
    hide Session, Inv, Booted;
    BootInv(h, s);
    SessionKeeps(h, s, calls);
    if Session(h, s, calls).phase == GoIdle {
      ResetIsClean(h, s, calls);
    }
  }

  /** One restart on a host with a lock switch, which reads locked: the reset is awaited, protected. */
  lemma LockedReset() returns (h: Host, s: State, i: Input)
    ensures Booted(s) && h.lockSwitch
    ensures var n := Session(h, s, [Restart(i)]);
      Inv(h, n) && n.phase == GoIdle && n.writeProtected && !n.highSpeed && !n.highCapacity
  {
    hide Inv, NextStage, NextRca, NextVersion, NextPushPull, NextProt, NextCcc;
    h := Host(true, false, true, true, true, false, false, true, true, 1, 0, false, None);
    s := State(Done, 0, 0, Sd1, 0, false, false, false, false, 0, 0);
    i := Input(true, false, false, Response(0, 0, 0, 0), true, true, true, true, true, true, true, [], 0, true);
    assert [Restart(i)][..0] == [];
    BootInv(h, s);
    ResetIsCleanSinceBoot(h, s, [Restart(i)]);
    ResetReadsSwitch(h, s.(phase := Start), i);
  }

  /** Entering it, write protection is exactly what the last power-up read from the switch. */
  lemma ResetReadsSwitch(h: Host, s: State, i: Input)
    requires Inv(h, s) && s.phase == Start && Next(h, s, i).phase == GoIdle
    ensures Next(h, s, i).writeProtected <==> h.lockSwitch && i.locked
    ensures s.count + 1 > h.powerRetry && i.present && i.powered
  {
    hide NextStage, NextCount, NextRca, NextVersion, NextHighSpeed, NextHighCapacity, NextPushPull, NextProt, NextCcc,
      Bounded, Drained, Sorted, Allowed;
  }

  // ----- write protection -----

  predicate Locks(s: State, i: Input) {
    s.phase == SendCsd && !i.error && CsdLocked(s, i)
  }

  predicate Locked(h: Host, s: State, ins: seq<Input>, k: int) {
    0 <= k < |ins| && Locks(After(h, s, ins[..k]), ins[k])
  }

  lemma AfterLast(h: Host, s: State, ins: seq<Input>)
    requires ins != []
    ensures After(h, s, ins) == Next(h, After(h, s, ins[..|ins| - 1]), ins[|ins| - 1])
  {
    hide Next, Sent, Ok;
  }

  lemma AfterNone(h: Host, s: State)
    ensures After(h, s, []) == s
  {
  }

  /** From the reset on, a card becomes write protected exactly when its decoded register says so. */
  lemma {:induction false} WriteProtectExactly(h: Host, s: State, ins: seq<Input>)
    requires s.phase == GoIdle
    ensures After(h, s, ins).phase != Start
    ensures After(h, s, ins).writeProtected <==> s.writeProtected || exists k :: Locked(h, s, ins, k)
  {
    hide Next, Locks, After;
    if ins == [] {
      AfterNone(h, s);
    } else {
      var last := |ins| - 1;
      var p := ins[..last];
      WriteProtectExactly(h, s, p);
      AfterLast(h, s, ins);
      LockStep(h, After(h, s, p), ins[last]);
      forall k ensures Locked(h, s, ins, k) <==> Locked(h, s, p, k) || (k == last && Locks(After(h, s, p), ins[last])) {
        assert 0 <= k <= last ==> p[..k] == ins[..k];
      }
      assert Locked(h, s, ins, last) <==> Locks(After(h, s, p), ins[last]);
    }
  }

  lemma LockStep(h: Host, s: State, i: Input)
    requires s.phase != Start
    ensures Next(h, s, i).phase != Start
    ensures Next(h, s, i).writeProtected <==> s.writeProtected || Locks(s, i)
  {
    hide CsdLocked, Refused, Waits, NextStage, NextCount, NextRca, NextVersion, NextHighSpeed, NextHighCapacity,
      NextPushPull, NextProt, NextCcc;
  }

  // ----- high speed -----

  /** The card's answers that turn high speed on: the SD check and switch calls, or the MMC switch call. */
  predicate Negotiates(h: Host, s: State, check: Input, switched: Input) {
    match s.phase
    case CheckMode =>
      && h.highSpeed && CardHasSwitch(s)
      && !check.error && check.pioRead && CardOffersHighSpeed(check) && check.pioReady && check.sent
      && !switched.error && switched.pioRead && CardSwitched(switched)
    case ExtCsd =>
      && h.highSpeed
      && !check.error && check.pioRead && CardIs26Or52(check) && check.sent
      && !switched.error
    case _ => false
  }

  predicate Negotiated(h: Host, s: State, ins: seq<Input>, k: int) {
    0 <= k < |ins| - 1 && Negotiates(h, After(h, s, ins[..k]), ins[k], ins[k + 1])
  }

  /** The calls that raise the flag. */
  predicate Raises(s: State, i: Input) {
    match s.phase
    case SwitchMode => !i.error && i.pioRead && CardSwitched(i)
    case SwitchHs => !i.error
    case _ => false
  }

  lemma SpeedStep(h: Host, s: State, i: Input)
    ensures Next(h, s, i).highSpeed <==> (s.highSpeed && !Clears(s)) || Raises(s, i)
  {
    hide NextPhase, NextStage, NextCount, NextRca, NextVersion, NextHighCapacity, NextWriteProtected,
      NextPushPull, NextProt, NextCcc;
  }

  /** The switch phases are entered only by a successful check. */
  lemma EntersSwitch(h: Host, s: State, i: Input)
    requires Ok(h, s, i)
    ensures NextPhase(h, s, i) == SwitchMode <==>
      && s.phase == CheckMode && h.highSpeed && CardHasSwitch(s)
      && !i.error && i.pioRead && CardOffersHighSpeed(i) && i.pioReady && i.sent
    ensures NextPhase(h, s, i) == SwitchHs <==>
      s.phase == ExtCsd && h.highSpeed && !i.error && i.pioRead && CardIs26Or52(i) && i.sent
  {
    hide Bit, TimedOut, WideMmc, Wide;
  }

  lemma NegotiatesExactly(h: Host, s: State, check: Input, switched: Input)
    requires Ok(h, s, check)
    ensures Negotiates(h, s, check, switched) <==> Raises(Next(h, s, check), switched)
  {
    hide Refused, Ok, NextPhase, CardOffersHighSpeed, CardHasSwitch, CardSwitched, CardIs26Or52,
      NextStage, NextCount, NextRca, NextVersion, NextHighSpeed, NextHighCapacity, NextWriteProtected,
      NextPushPull, NextProt, NextCcc;
    EntersSwitch(h, s, check);
  }

  /** Back to the restart only from the restart. */
  lemma StartOnlyFromStart(h: Host, s: State, i: Input)
    ensures NextPhase(h, s, i) == Start ==> s.phase == Start
  {
    hide Refused, Waits;
  }

  /** In every attempt, at every call, high speed is on exactly when the host, the card's command
      classes, its check answer and its switch answer all allowed it, or for an MMC card its type and
      its answer to the switch. */
  lemma {:induction false} HighSpeedExactly(h: Host, s: State, ins: seq<Input>)
    requires s.phase == Start && (s.count > 0 ==> !s.highSpeed)
    requires ins != [] && Succeeds(h, s, ins[..|ins| - 1])
    ensures var n := After(h, s, ins);
      && (n.highSpeed <==> exists k :: Negotiated(h, s, ins, k))
      && (n.phase == Start ==> !n.highSpeed)
  {
    hide Next, Ok, Negotiates, Raises, After, Succeeds, Clears;
    var last := |ins| - 1;
    var p := ins[..last];
    var n := After(h, s, p);
    AfterLast(h, s, ins);
    SpeedStep(h, n, ins[last]);
    StartOnlyFromStart(h, n, ins[last]);
    PhaseOfNext(h, n, ins[last]);
    NothingRaisedInStart(n, ins[last]);
    if p == [] {
      AfterNone(h, s);
    } else {
      SucceedsLast(h, s, p);
      HighSpeedExactly(h, s, p);
      AfterLast(h, s, p);
      NegotiatesExactly(h, After(h, s, p[..last - 1]), p[last - 1], ins[last]);
      forall k ensures Negotiated(h, s, ins, k) <==> Negotiated(h, s, p, k) || (k == last - 1 && Raises(n, ins[last])) {
        assert 0 <= k < last ==> p[..k] == ins[..k];
      }
      assert Negotiated(h, s, ins, last - 1) <==> Raises(n, ins[last]);
    }
  }

  lemma NothingRaisedInStart(s: State, i: Input)
    ensures s.phase == Start ==> !Raises(s, i)
    ensures Clears(s) <==> s.phase == Start && s.count == 0
  {
  }
}
